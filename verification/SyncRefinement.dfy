/** Asynchronous memory refines synchronous memory. Under the register discipline below, every
    interleaving of the interpreter with the memory threads has the effect of a machine that
    performs each access the moment the instruction is issued, under the same context schedule. */
module SyncRefinement {
  import opened Words
  import opened Isa
  import opened Microengine
  import opened MicroMachine

  // ------------------------------------------------------------------ register banks

  /** The context a register belongs to: 32 general, 16 write and 16 read registers each. */
  function Owner(i: nat): nat {
    if i < 128 then i / 32 else if i < 192 then (i - 128) / 16 else (i - 192) / 16
  }

  predicate OwnOperand(r: Reg) {
    r.kind == RELATIVE && 0 <= r.number < 64
  }

  /** The operand by which its owner names a register. */
  function OperandNaming(i: nat): (r: Reg)
    requires i < REGISTERS
    ensures OwnOperand(r)
  {
    Reg(RELATIVE, if i < 128 then i % 32 else if i < 192 then 32 + (i - 128) % 16 else 48 + (i - 192) % 16)
  }

  lemma OperandOwned(ctx: nat, r: Reg)
    requires ctx < CONTEXTS && OwnOperand(r)
    ensures Owner(AbsoluteRegister(ctx, r)) == ctx
    ensures OperandNaming(AbsoluteRegister(ctx, r)) == r
  {
    RegisterNamed(ctx, r);
    assert ctx == 0 || ctx == 1 || ctx == 2 || ctx == 3;
  }

  /** (context, operand) maps one-to-one onto the 256 registers. */
  lemma BanksPartitionRegisters(ctx: nat, r: Reg, i: nat)
    requires ctx < CONTEXTS && OwnOperand(r) && i < REGISTERS
    ensures AbsoluteRegister(ctx, r) == i <==> ctx == Owner(i) && r == OperandNaming(i)
  {
    OperandOwned(ctx, r);
    RegisterNamed(Owner(i), OperandNaming(i));
  }

  // ---------------------------------------------------------------------- discipline

  predicate TransferInBank(inst: Inst<nat>)
    requires inst.Memory?
  {
    && inst.token == CTX_SWAP && inst.count > 0
    && (inst.direction == READ && inst.xfer.number >= 48 ==> inst.xfer.number + inst.count <= 64)
    && (inst.direction == WRITE && 32 <= inst.xfer.number < 48 ==> inst.xfer.number + inst.count <= 48)
  }

  /** Relative operands below 64, swapping in-bank transfers of a static length, no FIFO. */
  predicate Disciplined(inst: Inst<nat>) {
    match inst
    case Immediate(_, dst, _, _) => OwnOperand(dst)
    case Alu(_, dst, src1, _, src2, _, _) => OwnOperand(dst) && OwnOperand(src1) && OwnOperand(src2)
    case Memory(_, _, xfer, addr1, addr2, _, _) =>
      OwnOperand(xfer) && OwnOperand(addr1) && OwnOperand(addr2) && TransferInBank(inst)
    case Branch(_, src1, src2, _) => OwnOperand(src1) && OwnOperand(src2)
    case Load(_, dst, _, src, _) => OwnOperand(dst) && OwnOperand(src)
    case Fifo(_, _, _, _, _) => false
    case NoArg(_) => true
    case Csr(_, dst, _) => OwnOperand(dst)
  }

  predicate DisciplinedCode(code: Code) {
    CodeFits(code) && forall i :: 0 <= i < |code| ==> Disciplined(code[i])
  }

  /** A transfer that stays in one bank of the context it wakes. */
  predicate Owned(job: Job) {
    && job.MemJob? && job.wake.Some? && job.wake.value < CONTEXTS
    && job.reg + job.count <= REGISTERS
    && forall i :: job.reg <= i < job.reg + job.count ==> Owner(i) == job.wake.value
  }

  lemma DisciplinedJobOwned(core: Core, ctx: nat, inst: Inst<nat>)
    requires core.Valid() && ctx < CONTEXTS && FieldsFit(inst) && Disciplined(inst) && inst.Memory?
    requires MemoryJob(core, ctx, inst).Some?
    ensures Owned(MemoryJob(core, ctx, inst).value)
    ensures MemoryJob(core, ctx, inst).value.wake == Some(ctx)
  {
    var job := MemoryJob(core, ctx, inst).value;
    RegisterNamed(ctx, inst.xfer);
    BankOwned(ctx, if job.write then 128 else 192, job.reg, job.count);
  }

  lemma BankOwned(ctx: nat, bank: nat, reg: nat, count: nat)
    requires ctx < CONTEXTS && (bank == 128 || bank == 192)
    requires bank + 16 * ctx <= reg && reg + count <= bank + 16 * ctx + 16
    ensures forall i :: reg <= i < reg + count ==> Owner(i) == ctx
  {
    assert ctx == 0 || ctx == 1 || ctx == 2 || ctx == 3;
  }

  // ---------------------------------------------------- the synchronous machine

  /** One instruction, memory access included. */
  predicate SyncEnabled(code: Code, core: Core, ctx: nat)
    requires CodeFits(code) && core.Valid() && ctx < CONTEXTS
  {
    && core.pc[ctx] < |code|
    && var inst := code[core.pc[ctx]];
       var job := JobOf(Advance(core, ctx), ctx, inst);
       job.Some? ==> JobFits(core, QueueOf(inst.opcode), job.value)
  }

  function SyncExec(code: Code, core: Core, ctx: nat): (core': Core)
    requires CodeFits(code) && core.Valid() && ctx < CONTEXTS && SyncEnabled(code, core, ctx)
    ensures core'.Valid()
  {
    var inst := code[core.pc[ctx]];
    var core1 := Advance(core, ctx);
    var job := JobOf(core1, ctx, inst);
    if job.Some? then Perform(core1, QueueOf(inst.opcode), job.value) else Exec(core1, ctx, inst)
  }

  /** A word of scratch (0) or RAM (1), written by the host. */
  function Poked(core: Core, m: nat, i: nat, v: Word): (core': Core)
    requires core.Valid() && m < 2 && i < |core.mems[m]|
    ensures core'.Valid() && SameShape(core, core')
  {
    var mem: seq<Word> := core.mems[m][i := v];
    core.(mems := core.mems[m := mem])
  }

  /** What a schedule is made of: turns of contexts, and writes by the host to control registers and to
      memory. */
  datatype Turn = Run(ctx: nat) | SetCsr(i: nat, v: Word) | Poke(m: nat, i: nat, v: Word)

  predicate SyncIsRun(code: Code, core: Core, turns: seq<Turn>)
    requires CodeFits(code) && core.Valid()
    decreases |turns|
  {
    turns == [] ||
    match turns[0]
    case Run(ctx) =>
      ctx < CONTEXTS && SyncEnabled(code, core, ctx) && SyncIsRun(code, SyncExec(code, core, ctx), turns[1..])
    case SetCsr(i, v) =>
      i < 3 && SyncIsRun(code, core.(csrs := core.csrs[i := v]), turns[1..])
    case Poke(m, i, v) =>
      m < 2 && i < |core.mems[m]| && SyncIsRun(code, Poked(core, m, i, v), turns[1..])
  }

  function SyncAfter(code: Code, core: Core, turns: seq<Turn>): (core': Core)
    requires CodeFits(code) && core.Valid() && SyncIsRun(code, core, turns)
    ensures core'.Valid()
    decreases |turns|
  {
    if turns == [] then core
    else
      match turns[0]
      case Run(ctx) => SyncAfter(code, SyncExec(code, core, ctx), turns[1..])
      case SetCsr(i, v) => SyncAfter(code, core.(csrs := core.csrs[i := v]), turns[1..])
      case Poke(m, i, v) => SyncAfter(code, Poked(core, m, i, v), turns[1..])
  }

  function TurnOf(s: State, e: Event): seq<Turn> {
    match e
    case Execute => [Run(s.cur)]
    case HostCsr(i, v) => [SetCsr(i, v)]
    case HostMemory(m, i, v) => [Poke(m, i, v)]
    case _ => []
  }

  /** The schedule a run of the asynchronous machine follows. */
  function Schedule(code: Code, s: State, es: seq<Event>): seq<Turn>
    requires CodeFits(code) && s.Valid() && IsRun(code, s, es)
    decreases |es|
  {
    if es == [] then [] else TurnOf(s, es[0]) + Schedule(code, Step(code, s, es[0]), es[1..])
  }

  // -------------------------------------------------- flushing outstanding jobs

  predicate AllFit(core: Core, q: nat, jobs: seq<Job>) {
    forall i :: 0 <= i < |jobs| ==> JobFits(core, q, jobs[i]) && Owned(jobs[i])
  }

  predicate SameShape(a: Core, b: Core) {
    && |a.regs| == |b.regs| && |a.mems| == |b.mems|
    && forall m :: 0 <= m < |a.mems| ==> |a.mems[m]| == |b.mems[m]|
  }

  function Flush(core: Core, q: nat, jobs: seq<Job>): (core': Core)
    requires AllFit(core, q, jobs)
    ensures SameShape(core, core') && core'.pc == core.pc && core'.carry == core.carry && core'.sign == core.sign
    ensures core'.lastAlu == core.lastAlu && core'.csrs == core.csrs
    decreases |jobs|
  {
    if jobs == [] then core else Flush(Perform(core, q, jobs[0]), q, jobs[1..])
  }

  /** The rest of the job in hand, the queued jobs and the job being posted, oldest first. */
  function Pending(s: State, q: nat): seq<Job>
    requires s.Valid() && q < 2
    requires s.workers[q].Busy? ==> s.workers[q].job.MemJob? && s.workers[q].done <= s.workers[q].job.count
  {
    (if s.workers[q].Busy? then [Rest(s.workers[q].job, s.workers[q].done)] else [])
    + s.queues[q]
    + (if s.phase.Posting? && s.phase.q == q then [s.phase.job] else [])
  }

  // ------------------------------------------------------------- what commutes

  /** Actions that do not interfere with another context's transfer. */
  datatype Action =
    | Instr(ctx: nat, inst: Inst<nat>) | Csr(i: nat, v: Word) | Host(m: nat, i: nat, v: Word) | Word(q: nat, job: Job)

  /** The transfer reads or writes word i of its memory. */
  predicate Covers(job: Job, i: nat) {
    job.MemJob? && job.offset <= i < job.offset + job.count
  }

  predicate Applicable(a: Action, core: Core) {
    && core.Valid()
    && match a
       case Instr(ctx, inst) => ctx < CONTEXTS && FieldsFit(inst) && Disciplined(inst)
       case Csr(i, v) => i < 3
       case Host(m, i, v) => m < 2 && i < |core.mems[m]|
       case Word(q, job) => JobFits(core, q, job) && job.count > 0 && Owned(job)
  }

  function Apply(a: Action, core: Core): (core': Core)
    requires Applicable(a, core)
    ensures core'.Valid() && SameShape(core, core')
  {
    match a
    case Instr(ctx, inst) => Exec(Advance(core, ctx), ctx, inst)
    case Csr(i, v) => core.(csrs := core.csrs[i := v])
    case Host(m, i, v) => Poked(core, m, i, v)
    case Word(q, job) => CopyWord(core, q, job)
  }

  predicate Independent(a: Action, q: nat, job: Job) {
    match a
    case Instr(ctx, inst) => job.wake != Some(ctx)
    case Csr(i, v) => true
    case Host(m, i, v) => m != q || !Covers(job, i)
    case Word(p, other) => p != q && job.wake != other.wake
  }

  /** A transfer of another context neither changes nor sees this context's operands. */
  lemma OperandCommute(core: Core, ctx: nat, r: Reg, v: Word, q: nat, job: Job)
    requires core.Valid() && ctx < CONTEXTS && OwnOperand(r)
    requires JobFits(core, q, job) && job.count > 0 && Owned(job) && job.wake != Some(ctx)
    ensures CopyWord(core, q, job).Valid()
    ensures Operand(CopyWord(core, q, job), ctx, r) == Operand(core, ctx, r)
    ensures CopyWord(SetOperand(core, ctx, r, v), q, job) == SetOperand(CopyWord(core, q, job), ctx, r, v)
  {
    OperandOwned(ctx, r);
    var i := AbsoluteRegister(ctx, r);
    assert i != job.reg;
    if !job.write {
      var x := core.mems[q][job.offset];
      assert core.regs[i := v][job.reg := x] == core.regs[job.reg := x][i := v];
    }
  }

  predicate Elsewhere(core: Core, ctx: nat, inst: Inst<nat>, q: nat, job: Job) {
    && core.Valid() && ctx < CONTEXTS && FieldsFit(inst) && Disciplined(inst)
    && JobFits(core, q, job) && job.count > 0 && Owned(job) && job.wake != Some(ctx)
  }

  lemma AdvanceCommute(core: Core, ctx: nat, q: nat, job: Job)
    requires core.Valid() && ctx < CONTEXTS && JobFits(core, q, job) && job.count > 0
    ensures CopyWord(Advance(core, ctx), q, job) == Advance(CopyWord(core, q, job), ctx)
  {
  }

  lemma AluCommute(core: Core, ctx: nat, inst: Inst<nat>, q: nat, job: Job)
    requires Elsewhere(core, ctx, inst, q, job) && inst.Alu?
    ensures CopyWord(ExecAlu(core, ctx, inst), q, job) == ExecAlu(CopyWord(core, q, job), ctx, inst)
  {
    OperandCommute(core, ctx, inst.src1, 0, q, job);
    OperandCommute(core, ctx, inst.src2, 0, q, job);
    var src1, src2 := Operand(core, ctx, inst.src1), Operand(core, ctx, inst.src2);
    var result := AluResult(inst.op, src1, src2, core.carry, core.sign);
    OperandCommute(core, ctx, inst.dst, ShiftedResult(inst.opcode, result, inst.shift, inst.numShift), q, job);
  }

  lemma ImmediateCommute(core: Core, ctx: nat, inst: Inst<nat>, q: nat, job: Job)
    requires Elsewhere(core, ctx, inst, q, job) && inst.Immediate?
    ensures CopyWord(ExecImmediate(core, ctx, inst), q, job) == ExecImmediate(CopyWord(core, q, job), ctx, inst)
  {
    var v := ImmediateValue(inst.opcode, Operand(core, ctx, inst.dst), inst.ival, inst.rot);
    OperandCommute(core, ctx, inst.dst, v, q, job);
  }

  lemma LoadCommute(core: Core, ctx: nat, inst: Inst<nat>, q: nat, job: Job)
    requires Elsewhere(core, ctx, inst, q, job) && inst.Load?
    ensures CopyWord(ExecLoad(core, ctx, inst), q, job) == ExecLoad(CopyWord(core, q, job), ctx, inst)
  {
    OperandCommute(core, ctx, inst.dst, 0, q, job);
    var core0 := if inst.opcode == LD_FIELD_W_CLR then SetOperand(core, ctx, inst.dst, 0) else core;
    var v := PerformRot(Operand(core0, ctx, inst.src), inst.rot);
    OperandCommute(core0, ctx, inst.src, 0, q, job);
    OperandCommute(core0, ctx, inst.dst, LoadField(Operand(core0, ctx, inst.dst), v, Bitmask(inst.mask)), q, job);
  }

  lemma BranchCommute(core: Core, ctx: nat, inst: Inst<nat>, q: nat, job: Job)
    requires Elsewhere(core, ctx, inst, q, job) && inst.Branch?
    ensures CopyWord(ExecBranch(core, ctx, inst), q, job) == ExecBranch(CopyWord(core, q, job), ctx, inst)
  {
    OperandCommute(core, ctx, inst.src1, 0, q, job);
    OperandCommute(core, ctx, inst.src2, 0, q, job);
  }

  lemma CsrCommute(core: Core, ctx: nat, inst: Inst<nat>, q: nat, job: Job)
    requires Elsewhere(core, ctx, inst, q, job) && inst.Csr?
    ensures CopyWord(ExecCsr(core, ctx, inst), q, job) == ExecCsr(CopyWord(core, q, job), ctx, inst)
  {
    if inst.csrNum < 3 {
      OperandCommute(core, ctx, inst.dst, core.csrs[inst.csrNum], q, job);
    }
  }

  lemma InstrCommute(core: Core, ctx: nat, inst: Inst<nat>, q: nat, job: Job)
    requires Elsewhere(core, ctx, inst, q, job)
    ensures CopyWord(Apply(Instr(ctx, inst), core), q, job) == Apply(Instr(ctx, inst), CopyWord(core, q, job))
  {
    AdvanceCommute(core, ctx, q, job);
    var core1 := Advance(core, ctx);
    match inst
    case Alu(_, _, _, _, _, _, _) => AluCommute(core1, ctx, inst, q, job);
    case Immediate(_, _, _, _) => ImmediateCommute(core1, ctx, inst, q, job);
    case Load(_, _, _, _, _) => LoadCommute(core1, ctx, inst, q, job);
    case Branch(_, _, _, _) => BranchCommute(core1, ctx, inst, q, job);
    case Csr(_, _, _) => CsrCommute(core1, ctx, inst, q, job);
    case _ =>
  }

  /** Two words of different memories and different contexts can be copied in either order. */
  lemma WordsCommute(core: Core, p: nat, other: Job, q: nat, job: Job)
    requires JobFits(core, p, other) && other.count > 0 && JobFits(core, q, job) && job.count > 0
    requires p != q && other.reg != job.reg
    ensures CopyWord(CopyWord(core, p, other), q, job) == CopyWord(CopyWord(core, q, job), p, other)
  {
    var a := CopyWord(CopyWord(core, p, other), q, job);
    var b := CopyWord(CopyWord(core, q, job), p, other);
    assert a.regs == b.regs;
    assert a.mems == b.mems;
  }

  lemma PokeCommutes(core: Core, m: nat, i: nat, v: Word, q: nat, job: Job)
    requires core.Valid() && m < 2 && i < |core.mems[m]| && JobFits(core, q, job) && job.count > 0
    requires m != q || job.offset != i
    ensures CopyWord(Poked(core, m, i, v), q, job) == Poked(CopyWord(core, q, job), m, i, v)
  {
    var a, b := CopyWord(Poked(core, m, i, v), q, job), Poked(CopyWord(core, q, job), m, i, v);
    assert a.regs == b.regs;
    forall k | 0 <= k < |a.mems|
      ensures a.mems[k] == b.mems[k]
    {
    }
    assert a.mems == b.mems;
  }

  lemma ActionCopyCommute(a: Action, core: Core, q: nat, job: Job)
    requires Applicable(a, core) && JobFits(core, q, job) && job.count > 0 && Owned(job) && Independent(a, q, job)
    ensures Applicable(a, CopyWord(core, q, job))
    ensures CopyWord(Apply(a, core), q, job) == Apply(a, CopyWord(core, q, job))
  {
    match a
    case Instr(ctx, inst) => InstrCommute(core, ctx, inst, q, job);
    case Csr(i, v) =>
    case Host(m, i, v) => PokeCommutes(core, m, i, v, q, job);
    case Word(p, other) =>
      assert Owner(other.reg) != Owner(job.reg);
      WordsCommute(core, p, other, q, job);
  }

  lemma {:induction false} ActionPerformCommute(a: Action, core: Core, q: nat, job: Job)
    requires Applicable(a, core) && JobFits(core, q, job) && Owned(job) && Independent(a, q, job)
    ensures Applicable(a, Perform(core, q, job))
    ensures Perform(Apply(a, core), q, job) == Apply(a, Perform(core, q, job))
    decreases job.count
  {
    if job.count > 0 {
      ActionCopyCommute(a, core, q, job);
      ActionPerformCommute(a, CopyWord(core, q, job), q, Rest(job, 1));
    }
  }

  predicate AllIndependent(a: Action, q: nat, jobs: seq<Job>) {
    forall i :: 0 <= i < |jobs| ==> Independent(a, q, jobs[i])
  }

  /** An action moves past any number of outstanding transfers it does not interfere with. */
  lemma {:induction false} ActionFlushCommute(a: Action, core: Core, q: nat, jobs: seq<Job>)
    requires Applicable(a, core) && AllFit(core, q, jobs) && AllIndependent(a, q, jobs)
    ensures Applicable(a, Flush(core, q, jobs))
    ensures AllFit(Apply(a, core), q, jobs)
    ensures Flush(Apply(a, core), q, jobs) == Apply(a, Flush(core, q, jobs))
    decreases |jobs|
  {
    if jobs != [] {
      ActionPerformCommute(a, core, q, jobs[0]);
      ActionFlushCommute(a, Perform(core, q, jobs[0]), q, jobs[1..]);
    }
  }

  lemma {:induction false} PerformFlushCommute(core: Core, p: nat, other: Job, q: nat, jobs: seq<Job>)
    requires core.Valid() && JobFits(core, p, other) && Owned(other) && AllFit(core, q, jobs)
    requires p != q && forall i :: 0 <= i < |jobs| ==> jobs[i].wake != other.wake
    ensures AllFit(Perform(core, p, other), q, jobs)
    ensures Flush(Perform(core, p, other), q, jobs) == Perform(Flush(core, q, jobs), p, other)
    decreases other.count
  {
    if other.count > 0 {
      ActionFlushCommute(Word(p, other), core, q, jobs);
      PerformFlushCommute(CopyWord(core, p, other), p, Rest(other, 1), q, jobs);
    }
  }

  lemma {:induction false} FlushAppend(core: Core, q: nat, jobs: seq<Job>, job: Job)
    requires AllFit(core, q, jobs) && JobFits(core, q, job) && Owned(job)
    ensures AllFit(core, q, jobs + [job])
    ensures Flush(core, q, jobs + [job]) == Perform(Flush(core, q, jobs), q, job)
    decreases |jobs|
  {
    if jobs == [] {
      assert jobs + [job] == [job];
    } else {
      FlushAppend(Perform(core, q, jobs[0]), q, jobs[1..], job);
      assert (jobs + [job])[1..] == jobs[1..] + [job];
    }
  }

  // --------------------------------------------------------- context isolation

  lemma {:induction false} PerformFrame(core: Core, q: nat, job: Job, i: nat)
    requires JobFits(core, q, job) && i < |core.regs|
    requires i < job.reg || job.reg + job.count <= i
    ensures Perform(core, q, job).regs[i] == core.regs[i]
    decreases job.count
  {
    if job.count > 0 {
      PerformFrame(CopyWord(core, q, job), q, Rest(job, 1), i);
    }
  }

  lemma {:induction false} FlushFrame(core: Core, q: nat, jobs: seq<Job>, i: nat)
    requires AllFit(core, q, jobs) && i < |core.regs|
    requires forall k :: 0 <= k < |jobs| ==> jobs[k].wake != Some(Owner(i))
    ensures Flush(core, q, jobs).regs[i] == core.regs[i]
    decreases |jobs|
  {
    if jobs != [] {
      PerformFrame(core, q, jobs[0], i);
      FlushFrame(Perform(core, q, jobs[0]), q, jobs[1..], i);
    }
  }

  /** No disciplined instruction changes a register of another context. */
  lemma InstructionFrame(core: Core, ctx: nat, inst: Inst<nat>, i: nat)
    requires core.Valid() && ctx < CONTEXTS && FieldsFit(inst) && Disciplined(inst)
    requires i < REGISTERS && Owner(i) != ctx
    ensures Exec(core, ctx, inst).regs[i] == core.regs[i]
  {
    if inst.Alu? || inst.Immediate? || inst.Load? || inst.Csr? {
      OperandOwned(ctx, inst.dst);
    }
  }

  // ------------------------------------------------------------- the invariant

  predicate WorkersSound(s: State)
    requires s.Valid()
  {
    && (forall q :: 0 <= q < 2 && s.workers[q].Busy? ==>
          s.workers[q].job.MemJob? && s.workers[q].done <= s.workers[q].job.count)
    && (forall q :: 2 <= q < QUEUES ==> s.workers[q].Idle? && s.queues[q] == [])
    && (s.phase.Posting? ==> s.phase.q < 2)
  }

  ghost predicate Sound(s: State) {
    && s.Valid() && WorkersSound(s)
    && (forall c :: 0 <= c < CONTEXTS ==> Accounted(s, c))
    && AllFit(s.core, 0, Pending(s, 0)) && AllFit(s.core, 1, Pending(s, 1))
  }

  /** The state the synchronous machine is in: everything outstanding, performed. */
  function Flushed(s: State): (core: Core)
    requires s.Valid() && WorkersSound(s)
    requires AllFit(s.core, 0, Pending(s, 0)) && AllFit(s.core, 1, Pending(s, 1))
    ensures core.Valid() && SameShape(s.core, core)
  {
    Flush(Flush(s.core, 0, Pending(s, 0)), 1, Pending(s, 1))
  }

  function PostingWakes(s: State, q: nat, c: nat): nat {
    if s.phase.Posting? && s.phase.q == q then Wakes(s.phase.job.wake, c) else 0
  }

  lemma PendingWakes(s: State, q: nat, c: nat)
    requires s.Valid() && WorkersSound(s) && q < 2
    ensures WakesIn(Pending(s, q), c) == Held(s, q, c) + PostingWakes(s, q, c)
  {
    var a := if s.workers[q].Busy? then [Rest(s.workers[q].job, s.workers[q].done)] else [];
    var b := if s.phase.Posting? && s.phase.q == q then [s.phase.job] else [];
    WakesInConcat(a + s.queues[q], b, c);
    WakesInConcat(a, s.queues[q], c);
  }

  lemma {:induction false} WakerCounted(jobs: seq<Job>, i: nat, c: nat)
    requires i < |jobs| && jobs[i].wake == Some(c)
    ensures WakesIn(jobs, c) >= 1
  {
    if i > 0 {
      WakerCounted(jobs[1..], i - 1, c);
    }
  }

  lemma PendingAtMostOne(s: State, c: nat)
    requires Sound(s) && c < CONTEXTS
    ensures WakesIn(Pending(s, 0), c) + WakesIn(Pending(s, 1), c) <= if s.ready[c] then 0 else 1
  {
    PendingWakes(s, 0, c);
    PendingWakes(s, 1, c);
    assert Accounted(s, c);
  }

  /** A ready context has no outstanding transfer. */
  lemma ReadyHasNone(s: State, q: nat, c: nat)
    requires Sound(s) && q < 2 && c < CONTEXTS && s.ready[c]
    ensures forall i :: 0 <= i < |Pending(s, q)| ==> Pending(s, q)[i].wake != Some(c)
  {
    PendingAtMostOne(s, c);
    forall i | 0 <= i < |Pending(s, q)|
      ensures Pending(s, q)[i].wake != Some(c)
    {
      if Pending(s, q)[i].wake == Some(c) {
        WakerCounted(Pending(s, q), i, c);
      }
    }
  }

  /** Scratch and RAM transfers outstanding at the same time belong to different contexts. */
  lemma DistinctOwners(s: State, i: nat, j: nat)
    requires Sound(s) && i < |Pending(s, 0)| && j < |Pending(s, 1)|
    ensures Pending(s, 0)[i].wake != Pending(s, 1)[j].wake
  {
    var c := Pending(s, 0)[i].wake.value;
    PendingAtMostOne(s, c);
    WakerCounted(Pending(s, 0), i, c);
    if Pending(s, 1)[j].wake == Some(c) {
      WakerCounted(Pending(s, 1), j, c);
    }
  }

  // ------------------------------------------------------------- the simulation

  /** The step keeps the account of every context, so only shape and pending jobs remain to show. */
  lemma AccountKept(code: Code, s: State, e: Event)
    requires CodeFits(code) && Sound(s) && Enabled(code, s, e)
    ensures forall c :: 0 <= c < CONTEXTS ==> Accounted(Step(code, s, e), c)
  {
    forall c | 0 <= c < CONTEXTS
      ensures Accounted(Step(code, s, e), c)
    {
      StepKeepsAccount(code, s, e, c);
    }
  }

  /** Taking a job from a queue only moves it into the worker's hand. */
  lemma TakePending(code: Code, s: State, q: nat)
    requires CodeFits(code) && Sound(s) && Enabled(code, s, Take(q))
    ensures var s' := Step(code, s, Take(q));
            s'.Valid() && WorkersSound(s') && s'.core == s.core
            && Pending(s', 0) == Pending(s, 0) && Pending(s', 1) == Pending(s, 1)
  {
    hide Accounted, Flush, Flushed;
    assert q < 2;
    var jobs := s.queues[q];
    assert Pending(s, q)[0] == jobs[0];
    assert Rest(jobs[0], 0) == jobs[0];
    assert jobs == [jobs[0]] + jobs[1..];
  }

  /** Actions that leave the core and the pending transfers as they are. */
  lemma QuietStep(code: Code, s: State, e: Event)
    requires CodeFits(code) && Sound(s) && Enabled(code, s, e)
    requires e.Scan? || e.Yield? || e.Put? || e.Take?
    ensures Sound(Step(code, s, e)) && Flushed(Step(code, s, e)) == Flushed(s)
  {
    hide Accounted, Flush;
    var s' := Step(code, s, e);
    AccountKept(code, s, e);
    if e.Take? {
      TakePending(code, s, e.q);
    } else {
      assert Pending(s', 0) == Pending(s, 0);
      assert Pending(s', 1) == Pending(s, 1);
    }
  }

  lemma FinishStep(code: Code, s: State, q: nat)
    requires CodeFits(code) && Sound(s) && Enabled(code, s, Finish(q))
    ensures Sound(Step(code, s, Finish(q))) && Flushed(Step(code, s, Finish(q))) == Flushed(s)
  {
    hide Accounted;
    var s' := Step(code, s, Finish(q));
    AccountKept(code, s, Finish(q));
    assert q < 2;
    var done := Rest(s.workers[q].job, s.workers[q].done);
    assert Pending(s, q) == [done] + Pending(s', q);
    assert Pending(s', 1 - q) == Pending(s, 1 - q);
    forall i | 0 <= i < |Pending(s', q)|
      ensures Pending(s', q)[i] == Pending(s, q)[i + 1]
    {
    }
    assert Pending(s, q)[1..] == Pending(s', q);
  }

  lemma RestOwned(job: Job)
    requires Owned(job) && job.count > 0
    ensures Owned(Rest(job, 1))
  {
  }

  /** Copying one word of the oldest transfer of a queue. */
  lemma CopyHead(core: Core, q: nat, job: Job, rest: seq<Job>)
    requires JobFits(core, q, job) && Owned(job) && job.count > 0 && AllFit(core, q, [job] + rest)
    ensures AllFit(CopyWord(core, q, job), q, [Rest(job, 1)] + rest)
    ensures Flush(CopyWord(core, q, job), q, [Rest(job, 1)] + rest) == Flush(core, q, [job] + rest)
  {
    var core' := CopyWord(core, q, job);
    var jobs, jobs' := [job] + rest, [Rest(job, 1)] + rest;
    RestOwned(job);
    forall i | 0 <= i < |jobs'|
      ensures JobFits(core', q, jobs'[i]) && Owned(jobs'[i])
    {
      assert JobFits(core, q, jobs[i]) && Owned(jobs[i]);
      assert i > 0 ==> jobs'[i] == jobs[i];
    }
    assert jobs[1..] == rest && jobs'[1..] == rest;
  }

  lemma FitByShape(a: Core, b: Core, q: nat, jobs: seq<Job>)
    requires SameShape(a, b) && AllFit(a, q, jobs)
    ensures AllFit(b, q, jobs)
  {
  }

  /** A RAM word copied ahead of the outstanding scratch transfers. */
  lemma CopyAhead(core: Core, scratchJobs: seq<Job>, job: Job, rest: seq<Job>)
    requires core.Valid() && AllFit(core, 0, scratchJobs) && AllFit(core, 1, [job] + rest)
    requires JobFits(core, 1, job) && Owned(job) && job.count > 0
    requires forall i :: 0 <= i < |scratchJobs| ==> scratchJobs[i].wake != job.wake
    ensures var core' := CopyWord(core, 1, job);
            && AllFit(core', 0, scratchJobs) && AllFit(core', 1, [Rest(job, 1)] + rest)
            && Flush(Flush(core', 0, scratchJobs), 1, [Rest(job, 1)] + rest) ==
               Flush(Flush(core, 0, scratchJobs), 1, [job] + rest)
  {
    var flushed := Flush(core, 0, scratchJobs);
    var core' := CopyWord(core, 1, job);
    ActionFlushCommute(Word(1, job), core, 0, scratchJobs);
    assert Flush(core', 0, scratchJobs) == CopyWord(flushed, 1, job);
    FitByShape(core, flushed, 1, [job] + rest);
    CopyHead(flushed, 1, job, rest);
    FitByShape(CopyWord(flushed, 1, job), core', 1, [Rest(job, 1)] + rest);
  }

  lemma CopyPending(code: Code, s: State, q: nat)
    requires CodeFits(code) && Sound(s) && Enabled(code, s, Copy(q))
    ensures var s' := Step(code, s, Copy(q));
            var job := Rest(s.workers[q].job, s.workers[q].done);
            && WorkersSound(s') && s'.core == CopyWord(s.core, q, job)
            && JobFits(s.core, q, job) && Owned(job) && job.count > 0
            && |Pending(s, q)| > 0 && Pending(s, q) == [job] + Pending(s, q)[1..]
            && Pending(s', q) == [Rest(job, 1)] + Pending(s, q)[1..]
            && Pending(s', 1 - q) == Pending(s, 1 - q)
  {
    hide Accounted, Flush, Flushed;
    var w := s.workers[q];
    var job := Rest(w.job, w.done);
    assert Pending(s, q)[0] == job;
    assert Rest(w.job, w.done + 1) == Rest(job, 1);
  }

  lemma CopyStep(code: Code, s: State, q: nat)
    requires CodeFits(code) && Sound(s) && Enabled(code, s, Copy(q))
    ensures Sound(Step(code, s, Copy(q))) && Flushed(Step(code, s, Copy(q))) == Flushed(s)
  {
    AccountKept(code, s, Copy(q));
    CopyPending(code, s, q);
    var job := Rest(s.workers[q].job, s.workers[q].done);
    var rest := Pending(s, q)[1..];
    if q == 0 {
      CopyHead(s.core, 0, job, rest);
    } else {
      forall i | 0 <= i < |Pending(s, 0)|
        ensures Pending(s, 0)[i].wake != job.wake
      {
        DistinctOwners(s, i, 0);
      }
      CopyAhead(s.core, Pending(s, 0), job, rest);
    }
  }

  /** An action of a ready context, or of the host, moves past everything outstanding. */
  lemma ActionStep(s: State, a: Action)
    requires Sound(s) && Applicable(a, s.core) && !a.Word?
    requires a.Instr? ==> s.ready[a.ctx]
    requires a.Host? ==> AllIndependent(a, a.m, Pending(s, a.m))
    ensures Applicable(a, Flushed(s))
    ensures AllFit(Apply(a, s.core), 0, Pending(s, 0)) && AllFit(Apply(a, s.core), 1, Pending(s, 1))
    ensures Flush(Flush(Apply(a, s.core), 0, Pending(s, 0)), 1, Pending(s, 1)) == Apply(a, Flushed(s))
  {
    if a.Instr? {
      ReadyHasNone(s, 0, a.ctx);
      ReadyHasNone(s, 1, a.ctx);
    }
    ActionFlushCommute(a, s.core, 0, Pending(s, 0));
    ActionFlushCommute(a, Flush(s.core, 0, Pending(s, 0)), 1, Pending(s, 1));
    ActionFlushCommute(a, s.core, 1, Pending(s, 1));
  }

  lemma HostStep(code: Code, s: State, i: nat, v: Word)
    requires CodeFits(code) && Sound(s) && Enabled(code, s, HostCsr(i, v))
    ensures var s' := Step(code, s, HostCsr(i, v));
            Sound(s') && Flushed(s') == Apply(Action.Csr(i, v), Flushed(s))
  {
    var s' := Step(code, s, HostCsr(i, v));
    AccountKept(code, s, HostCsr(i, v));
    ActionStep(s, Action.Csr(i, v));
    assert Pending(s', 0) == Pending(s, 0) && Pending(s', 1) == Pending(s, 1);
  }

  /** The host writes no word that an outstanding transfer covers. */
  ghost predicate HostClear(s: State, e: Event) {
    e.HostMemory? ==>
      && s.Valid() && WorkersSound(s) && e.m < 2
      && forall k :: 0 <= k < |Pending(s, e.m)| ==> !Covers(Pending(s, e.m)[k], e.i)
  }

  lemma PokeKeepsSound(code: Code, s: State, m: nat, i: nat, v: Word)
    requires CodeFits(code) && Sound(s) && Enabled(code, s, HostMemory(m, i, v))
    ensures var s' := Step(code, s, HostMemory(m, i, v));
            Sound(s') && s'.core == Poked(s.core, m, i, v)
            && Pending(s', 0) == Pending(s, 0) && Pending(s', 1) == Pending(s, 1)
  {
    hide Accounted;
    var s' := Step(code, s, HostMemory(m, i, v));
    AccountKept(code, s, HostMemory(m, i, v));
    assert s'.core == Poked(s.core, m, i, v);
    FitByShape(s.core, s'.core, 0, Pending(s, 0));
    FitByShape(s.core, s'.core, 1, Pending(s, 1));
  }

  lemma PokeStep(code: Code, s: State, m: nat, i: nat, v: Word)
    requires CodeFits(code) && Sound(s) && Enabled(code, s, HostMemory(m, i, v)) && HostClear(s, HostMemory(m, i, v))
    ensures var s' := Step(code, s, HostMemory(m, i, v));
            Sound(s') && Flushed(s') == Apply(Host(m, i, v), Flushed(s))
  {
    PokeKeepsSound(code, s, m, i, v);
    ActionStep(s, Host(m, i, v));
  }

  /** The registers of a ready context already have their synchronous values. */
  lemma ReadyRegistersSettled(s: State, ctx: nat, i: nat)
    requires Sound(s) && ctx < CONTEXTS && s.ready[ctx] && i < REGISTERS && Owner(i) == ctx
    ensures Flushed(s).regs[i] == s.core.regs[i]
  {
    ReadyHasNone(s, 0, ctx);
    ReadyHasNone(s, 1, ctx);
    FlushFrame(s.core, 0, Pending(s, 0), i);
    FlushFrame(Flush(s.core, 0, Pending(s, 0)), 1, Pending(s, 1), i);
  }

  /** So the job it posts is the one the synchronous machine would perform. */
  lemma SameJob(s: State, inst: Inst<nat>)
    requires Sound(s) && s.ready[s.cur] && FieldsFit(inst) && Disciplined(inst)
    ensures JobOf(Advance(Flushed(s), s.cur), s.cur, inst) == JobOf(Advance(s.core, s.cur), s.cur, inst)
  {
    if inst.Memory? {
      OperandOwned(s.cur, inst.addr1);
      OperandOwned(s.cur, inst.addr2);
      ReadyRegistersSettled(s, s.cur, AbsoluteRegister(s.cur, inst.addr1));
      ReadyRegistersSettled(s, s.cur, AbsoluteRegister(s.cur, inst.addr2));
    }
  }

  lemma LocalStep(code: Code, s: State)
    requires DisciplinedCode(code) && Sound(s) && Enabled(code, s, Execute) && FetchedJob(code, s).None?
    ensures SyncEnabled(code, Flushed(s), s.cur)
    ensures var s' := Step(code, s, Execute);
            Sound(s') && Flushed(s') == SyncExec(code, Flushed(s), s.cur)
  {
    var s' := Step(code, s, Execute);
    var inst := code[s.core.pc[s.cur]];
    AccountKept(code, s, Execute);
    SameJob(s, inst);
    ActionStep(s, Instr(s.cur, inst));
    assert Pending(s', 0) == Pending(s, 0) && Pending(s', 1) == Pending(s, 1);
  }

  /** Performing a freshly issued job last is the same in either queue. */
  lemma IssuedLast(s: State, core: Core, q: nat, job: Job)
    requires Sound(s) && q < 2 && core.Valid() && SameShape(core, s.core)
    requires AllFit(core, 0, Pending(s, 0)) && AllFit(core, 1, Pending(s, 1))
    requires JobFits(core, q, job) && Owned(job) && s.ready[job.wake.value]
    ensures var p0 := if q == 0 then Pending(s, 0) + [job] else Pending(s, 0);
            var p1 := if q == 1 then Pending(s, 1) + [job] else Pending(s, 1);
            && AllFit(core, 0, p0) && AllFit(core, 1, p1)
            && Flush(Flush(core, 0, p0), 1, p1) ==
               Perform(Flush(Flush(core, 0, Pending(s, 0)), 1, Pending(s, 1)), q, job)
  {
    if q == 0 {
      ReadyHasNone(s, 1, job.wake.value);
      FlushAppend(core, 0, Pending(s, 0), job);
      PerformFlushCommute(Flush(core, 0, Pending(s, 0)), 0, job, 1, Pending(s, 1));
    } else {
      FlushAppend(core, 1, Pending(s, 1), job);
      FlushAppend(Flush(core, 0, Pending(s, 0)), 1, Pending(s, 1), job);
    }
  }

  lemma IssuePending(code: Code, s: State)
    requires DisciplinedCode(code) && Sound(s) && Enabled(code, s, Execute) && FetchedJob(code, s).Some?
    ensures var s' := Step(code, s, Execute);
            var q := QueueOf(code[s.core.pc[s.cur]].opcode);
            var job := FetchedJob(code, s).value;
            && q < 2 && Owned(job) && job.wake == Some(s.cur) && JobFits(s.core, q, job)
            && WorkersSound(s') && s'.core == Advance(s.core, s.cur)
            && Pending(s', q) == Pending(s, q) + [job]
            && Pending(s', 1 - q) == Pending(s, 1 - q)
  {
    var inst := code[s.core.pc[s.cur]];
    DisciplinedJobOwned(Advance(s.core, s.cur), s.cur, inst);
  }

  lemma IssueStep(code: Code, s: State)
    requires DisciplinedCode(code) && Sound(s) && Enabled(code, s, Execute) && FetchedJob(code, s).Some?
    ensures SyncEnabled(code, Flushed(s), s.cur)
    ensures var s' := Step(code, s, Execute);
            Sound(s') && Flushed(s') == SyncExec(code, Flushed(s), s.cur)
  {
    hide Accounted, Flush;
    var inst := code[s.core.pc[s.cur]];
    var core1 := Advance(s.core, s.cur);
    AccountKept(code, s, Execute);
    SameJob(s, inst);
    IssuePending(code, s);
    var tick := Instr(s.cur, NoArg(NOP));
    assert Apply(tick, s.core) == core1;
    ActionStep(s, tick);
    IssuedLast(s, core1, QueueOf(inst.opcode), FetchedJob(code, s).value);
  }

  // ----------------------------------------------------- isolation along a run

  /** The action is an instruction of `c` or part of a transfer for `c`. */
  predicate ActsFor(s: State, e: Event, c: nat)
    requires s.Valid()
  {
    || (e.Execute? && s.cur == c)
    || (e.Copy? && e.q < 2 && s.workers[e.q].Busy? && s.workers[e.q].job.wake == Some(c))
  }

  lemma StepIsolates(code: Code, s: State, e: Event, i: nat)
    requires DisciplinedCode(code) && Sound(s) && Enabled(code, s, e)
    requires i < REGISTERS && !ActsFor(s, e, Owner(i))
    ensures Step(code, s, e).core.regs[i] == s.core.regs[i]
  {
    if e.Execute? {
      InstructionFrame(Advance(s.core, s.cur), s.cur, code[s.core.pc[s.cur]], i);
    } else if e.Copy? {
      CopyPending(code, s, e.q);
      assert Owner(Rest(s.workers[e.q].job, s.workers[e.q].done).reg) != Owner(i);
    }
  }

  /** Every step keeps the invariant, whatever the host writes. */
  lemma StepKeepsSound(code: Code, s: State, e: Event)
    requires DisciplinedCode(code) && Sound(s) && Enabled(code, s, e)
    ensures Sound(Step(code, s, e))
  {
    if e.HostMemory? {
      PokeKeepsSound(code, s, e.m, e.i, e.v);
    } else {
      StepSimulates(code, s, e);
    }
  }

  /** A register changes only by the actions of the context it belongs to: along any run in which a
      context neither executes nor has a transfer served, its registers keep their values. */
  lemma {:induction false} ContextIsolation(code: Code, s: State, es: seq<Event>, i: nat)
    requires DisciplinedCode(code) && Sound(s) && IsRun(code, s, es) && i < REGISTERS
    requires forall k :: 0 <= k < |es| ==>
      IsRun(code, s, es[..k]) && !ActsFor(After(code, s, es[..k]), es[k], Owner(i))
    ensures After(code, s, es).core.regs[i] == s.core.regs[i]
    decreases |es|
  {
    if es != [] {
      var s1 := Step(code, s, es[0]);
      assert es[..0] == [];
      StepIsolates(code, s, es[0], i);
      StepKeepsSound(code, s, es[0]);
      forall k | 0 <= k < |es[1..]|
        ensures IsRun(code, s1, es[1..][..k]) && !ActsFor(After(code, s1, es[1..][..k]), es[1..][k], Owner(i))
      {
        assert es[..k + 1][1..] == es[1..][..k];
        assert es[..k + 1][0] == es[0];
        assert IsRun(code, s, es[..k + 1]);
      }
      ContextIsolation(code, s1, es[1..], i);
    }
  }

  // ---------------------------------------------------------------- the theorem

  /** Along the run, the host writes no word that a transfer outstanding at that moment covers. */
  ghost predicate HostStaysClear(code: Code, s: State, es: seq<Event>)
    requires CodeFits(code) && s.Valid() && IsRun(code, s, es)
    decreases |es|
  {
    es == [] || (HostClear(s, es[0]) && HostStaysClear(code, Step(code, s, es[0]), es[1..]))
  }

  lemma {:induction false} SilentHostIsClear(code: Code, s: State, es: seq<Event>)
    requires CodeFits(code) && s.Valid() && IsRun(code, s, es)
    requires forall i :: 0 <= i < |es| ==> !es[i].HostMemory?
    ensures HostStaysClear(code, s, es)
    decreases |es|
  {
    if es != [] {
      SilentHostIsClear(code, Step(code, s, es[0]), es[1..]);
    }
  }

  /** One action of the asynchronous machine is one turn of the synchronous one, or none. */
  lemma StepSimulates(code: Code, s: State, e: Event)
    requires DisciplinedCode(code) && Sound(s) && Enabled(code, s, e) && HostClear(s, e)
    ensures Sound(Step(code, s, e))
    ensures SyncIsRun(code, Flushed(s), TurnOf(s, e))
    ensures SyncAfter(code, Flushed(s), TurnOf(s, e)) == Flushed(Step(code, s, e))
  {
    hide Accounted, Flush, HostClear;
    match e
    case Execute =>
      if FetchedJob(code, s).Some? {
        IssueStep(code, s);
      } else {
        LocalStep(code, s);
      }
    case HostCsr(i, v) => HostStep(code, s, i, v);
    case HostMemory(m, i, v) => PokeStep(code, s, m, i, v);
    case Copy(q) => CopyStep(code, s, q);
    case Finish(q) => FinishStep(code, s, q);
    case Receive(_, _) =>
    case Discard =>
    case _ => QuietStep(code, s, e);
  }

  lemma {:induction false} SyncConcat(code: Code, core: Core, a: seq<Turn>, b: seq<Turn>)
    requires CodeFits(code) && core.Valid() && SyncIsRun(code, core, a)
    requires SyncIsRun(code, SyncAfter(code, core, a), b)
    ensures SyncIsRun(code, core, a + b)
    ensures SyncAfter(code, core, a + b) == SyncAfter(code, SyncAfter(code, core, a), b)
    decreases |a|
  {
    if a == [] {
      assert a + b == b;
    } else {
      assert (a + b)[1..] == a[1..] + b;
      match a[0]
      case Run(ctx) => SyncConcat(code, SyncExec(code, core, ctx), a[1..], b);
      case SetCsr(i, v) => SyncConcat(code, core.(csrs := core.csrs[i := v]), a[1..], b);
      case Poke(m, i, v) => SyncConcat(code, Poked(core, m, i, v), a[1..], b);
    }
  }

  lemma {:induction false} RunSimulates(code: Code, s: State, es: seq<Event>)
    requires DisciplinedCode(code) && Sound(s) && IsRun(code, s, es) && HostStaysClear(code, s, es)
    ensures Sound(After(code, s, es))
    ensures SyncIsRun(code, Flushed(s), Schedule(code, s, es))
    ensures SyncAfter(code, Flushed(s), Schedule(code, s, es)) == Flushed(After(code, s, es))
    decreases |es|
  {
    if es != [] {
      StepSimulates(code, s, es[0]);
      RunSimulates(code, Step(code, s, es[0]), es[1..]);
      SyncConcat(code, Flushed(s), TurnOf(s, es[0]), Schedule(code, Step(code, s, es[0]), es[1..]));
    }
  }

  predicate Quiescent(s: State)
    requires s.Valid()
  {
    !s.phase.Posting? && forall q :: 0 <= q < QUEUES ==> s.queues[q] == [] && s.workers[q].Idle?
  }

  /** Every run of a disciplined program follows a synchronous run with the same schedule: ready
      contexts see their synchronous register values at every moment, flags and program counters
      always agree, and whenever no transfer is outstanding the whole states agree. */
  lemma AsyncRefinesSync(code: Code, core: Core, es: seq<Event>)
    requires DisciplinedCode(code) && core.Valid() && IsRun(code, Start(core), es)
    requires HostStaysClear(code, Start(core), es)
    ensures SyncIsRun(code, core, Schedule(code, Start(core), es))
    ensures var s := After(code, Start(core), es);
            var sync := SyncAfter(code, core, Schedule(code, Start(core), es));
            && sync.pc == s.core.pc && sync.carry == s.core.carry && sync.sign == s.core.sign
            && sync.lastAlu == s.core.lastAlu && sync.csrs == s.core.csrs
            && (forall i :: 0 <= i < REGISTERS && s.ready[Owner(i)] ==> sync.regs[i] == s.core.regs[i])
            && (Quiescent(s) ==> sync == s.core)
  {
    var s0 := Start(core);
    assert Pending(s0, 0) == [] && Pending(s0, 1) == [];
    RunSimulates(code, s0, es);
    var s := After(code, s0, es);
    forall i | 0 <= i < REGISTERS && s.ready[Owner(i)]
      ensures Flushed(s).regs[i] == s.core.regs[i]
    {
      ReadyRegistersSettled(s, Owner(i), i);
    }
  }

  // ------------------------------------------------------------- a disciplined run

  const READ_SCRATCH: Inst<nat> :=
    Memory(SCRATCH, READ, Reg(RELATIVE, 48), Reg(RELATIVE, 0), Reg(RELATIVE, 0), 1, CTX_SWAP)

  ghost predicate Moves(code: Code, s: State, e: Event, s': State) {
    CodeFits(code) && s.Valid() && Enabled(code, s, e) && Step(code, s, e) == s'
  }

  ghost predicate Leads(code: Code, s: State, es: seq<Event>, s': State) {
    CodeFits(code) && s.Valid() && IsRun(code, s, es) && After(code, s, es) == s'
  }

  lemma LeadsCons(code: Code, s: State, e: Event, mid: State, es: seq<Event>, end: State)
    requires Moves(code, s, e, mid) && Leads(code, mid, es, end)
    ensures Leads(code, s, [e] + es, end)
  {
    assert ([e] + es)[1..] == es;
  }

  const ONE_WORD := MemJob(false, 0, 192, 1, Some(0))
  const ASLEEP := [false, true, true, true]
  const EMPTY: seq<seq<Job>> := [[], [], [], [], []]
  const IDLE := [Idle, Idle, Idle, Idle, Idle]

  lemma Issues(core: Core)
    requires core.Valid() && core.regs[0] == 0 && core.pc[0] == 0 && |core.mems[0]| > 0
    ensures Moves([READ_SCRATCH], Start(core), Execute,
                  State(Advance(core, 0), 0, ASLEEP, Posting(0, ONE_WORD), EMPTY, IDLE, []))
  {
    assert AbsoluteRegister(0, Reg(RELATIVE, 48)) == 192 && AbsoluteRegister(0, Reg(RELATIVE, 0)) == 0;
    assert FetchedJob([READ_SCRATCH], Start(core)) == Some(ONE_WORD);
  }

  lemma Queues(core: Core)
    requires core.Valid()
    ensures var queued := [[ONE_WORD], [], [], [], []];
            && Moves([READ_SCRATCH], State(core, 0, ASLEEP, Posting(0, ONE_WORD), EMPTY, IDLE, []), Put,
                     State(core, 0, ASLEEP, Yielding, queued, IDLE, []))
            && Moves([READ_SCRATCH], State(core, 0, ASLEEP, Yielding, queued, IDLE, []), Yield,
                     State(core, 1, ASLEEP, Fetching, queued, IDLE, []))
            && Moves([READ_SCRATCH], State(core, 1, ASLEEP, Fetching, queued, IDLE, []), Take(0),
                     State(core, 1, ASLEEP, Fetching, EMPTY, IDLE[0 := Busy(ONE_WORD, 0)], []))
  {
    assert [ONE_WORD][1..] == [];
    assert EMPTY[0] + [ONE_WORD] == [ONE_WORD];
    assert EMPTY[0 := [ONE_WORD]] == [[ONE_WORD], [], [], [], []];
    assert [[ONE_WORD], [], [], [], []][0 := []] == EMPTY;
  }

  lemma Serves(core: Core)
    requires core.Valid() && |core.mems[0]| > 0
    ensures var core' := core.(regs := core.regs[192 := core.mems[0][0]]);
            && Moves([READ_SCRATCH], State(core, 1, ASLEEP, Fetching, EMPTY, IDLE[0 := Busy(ONE_WORD, 0)], []), Copy(0),
                     State(core', 1, ASLEEP, Fetching, EMPTY, IDLE[0 := Busy(ONE_WORD, 1)], []))
            && Moves([READ_SCRATCH],
                     State(core', 1, ASLEEP, Fetching, EMPTY, IDLE[0 := Busy(ONE_WORD, 1)], []), Finish(0),
                     State(core', 1, [true, true, true, true], Fetching, EMPTY, IDLE, []))
  {
    assert Rest(ONE_WORD, 0) == ONE_WORD;
  }

  /** The discipline is not empty: a context that reads one scratch word through the worker, from issue
      to wake-up, ends with the word in its register and no transfer outstanding. */
  lemma ReadCompletes(core: Core)
    requires core.Valid() && core.regs[0] == 0 && core.pc[0] == 0 && |core.mems[0]| > 0
    ensures DisciplinedCode([READ_SCRATCH])
    ensures var es := [Execute, Put, Yield, Take(0), Copy(0), Finish(0)];
            && IsRun([READ_SCRATCH], Start(core), es) && HostStaysClear([READ_SCRATCH], Start(core), es)
            && var s := After([READ_SCRATCH], Start(core), es);
               Quiescent(s) && s.core == Advance(core, 0).(regs := core.regs[192 := core.mems[0][0]])
  {
    var code := [READ_SCRATCH];
    var core1 := Advance(core, 0);
    var core2 := core1.(regs := core.regs[192 := core.mems[0][0]]);
    var queued := [[ONE_WORD], [], [], [], []];
    Issues(core);
    Queues(core1);
    Serves(core1);
    var s1 := State(core1, 0, ASLEEP, Posting(0, ONE_WORD), EMPTY, IDLE, []);
    var s2 := State(core1, 0, ASLEEP, Yielding, queued, IDLE, []);
    var s3 := State(core1, 1, ASLEEP, Fetching, queued, IDLE, []);
    var s4 := State(core1, 1, ASLEEP, Fetching, EMPTY, IDLE[0 := Busy(ONE_WORD, 0)], []);
    var s5 := State(core2, 1, ASLEEP, Fetching, EMPTY, IDLE[0 := Busy(ONE_WORD, 1)], []);
    var s6 := State(core2, 1, [true, true, true, true], Fetching, EMPTY, IDLE, []);
    assert Leads(code, s6, [], s6);
    hide Moves, IsRun, After;
    LeadsCons(code, s5, Finish(0), s6, [], s6);
    LeadsCons(code, s4, Copy(0), s5, [Finish(0)] + [], s6);
    LeadsCons(code, s3, Take(0), s4, [Copy(0)] + ([Finish(0)] + []), s6);
    LeadsCons(code, s2, Yield, s3, [Take(0), Copy(0), Finish(0)], s6);
    LeadsCons(code, s1, Put, s2, [Yield, Take(0), Copy(0), Finish(0)], s6);
    LeadsCons(code, Start(core), Execute, s1, [Put, Yield, Take(0), Copy(0), Finish(0)], s6);
    SilentHostIsClear(code, Start(core), [Execute] + [Put, Yield, Take(0), Copy(0), Finish(0)]);
  }
}
