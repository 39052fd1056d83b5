/** The microengine as a concurrent machine: the interpreter thread, the scratch and RAM threads,
    the physical layer and the packet consumer, interleaved one atomic action at a time. */
module MicroMachine {
  import opened Words
  import opened Isa
  import opened Microengine

  /** Where the interpreter thread is: between instructions, about to put a job whose context it has
      already marked not ready, or about to leave a context it has put to sleep. */
  datatype Phase = Fetching | Posting(q: nat, job: Job) | Yielding

  /** A worker thread, with the number of words it has copied of its job. */
  datatype Worker = Idle | Busy(job: Job, done: nat)

  /** `lost` records the contexts whose job was dropped without running its callback. */
  datatype State = State(
    core: Core, cur: nat, ready: seq<bool>, phase: Phase,
    queues: seq<seq<Job>>, workers: seq<Worker>, lost: seq<nat>)
  {
    predicate Valid() {
      core.Valid() && cur < CONTEXTS && |ready| == CONTEXTS && |queues| == QUEUES && |workers| == QUEUES
    }
  }

  datatype Event =
    | Scan                                       // the current context is not ready: look at the next one
    | Execute                                    // fetch and interpret one instruction
    | Put                                        // enqueue the job of the instruction being interpreted
    | Yield                                      // leave the context just put to sleep
    | Take(q: nat)                               // a worker takes the oldest job of its queue
    | Copy(q: nat)                               // a memory worker copies one word
    | Receive(size: Word, ram: seq<Word>)        // the physical layer stores an incoming packet
    | Finish(q: nat)                             // a worker completes its job and runs the callback
    | Discard                                    // handleRx fails to write the guest buffer
    | HostCsr(i: nat, v: Word)                   // the host changes a control register
    | HostMemory(m: nat, i: nat, v: Word)        // the host writes scratch or RAM

  type Code = seq<Inst<nat>>

  predicate CodeFits(code: Code) {
    forall i :: 0 <= i < |code| ==> FieldsFit(code[i])
  }

  function FetchedJob(code: Code, s: State): Option<Job>
    requires CodeFits(code) && s.Valid() && s.core.pc[s.cur] < |code|
  {
    JobOf(Advance(s.core, s.cur), s.cur, code[s.core.pc[s.cur]])
  }

  /** When an action can happen. A memory access outside the register file or its memory is
      undefined behaviour and not part of any run. */
  predicate Enabled(code: Code, s: State, e: Event)
    requires CodeFits(code) && s.Valid()
  {
    match e
    case Scan => s.phase.Fetching? && !s.ready[s.cur]
    case Execute =>
      && s.phase.Fetching? && s.ready[s.cur] && s.core.pc[s.cur] < |code|
      && var job := FetchedJob(code, s);
         job.Some? && job.value.MemJob? ==> JobFits(s.core, QueueOf(code[s.core.pc[s.cur]].opcode), job.value)
    case Put => s.phase.Posting? && s.phase.q < QUEUES
    case Yield => s.phase.Yielding?
    case Take(q) => q < QUEUES && s.workers[q].Idle? && s.queues[q] != []
    case Copy(q) =>
      && q < 2 && s.workers[q].Busy? && s.workers[q].job.MemJob? && s.workers[q].done < s.workers[q].job.count
      && JobFits(s.core, q, Rest(s.workers[q].job, s.workers[q].done))
    case Receive(size, ram) =>
      && s.workers[RX_QUEUE].Busy? && s.workers[RX_QUEUE].job.FifoJob?
      && s.workers[RX_QUEUE].job.sizeReg < REGISTERS && |ram| == |s.core.mems[RAM_QUEUE]|
    case Finish(q) =>
      && q < QUEUES && s.workers[q].Busy?
      && (s.workers[q].job.MemJob? ==> s.workers[q].done == s.workers[q].job.count)
    case Discard => s.workers[PKT_IN_QUEUE].Busy?
    case HostCsr(i, v) => i < 3
    case HostMemory(m, i, v) => m < 2 && i < |s.core.mems[m]|
  }

  function Wake(ready: seq<bool>, wake: Option<nat>): (r: seq<bool>)
    ensures |r| == |ready|
  {
    if wake.Some? && wake.value < |ready| then ready[wake.value := true] else ready
  }

  function Executed(code: Code, s: State): (s': State)
    requires CodeFits(code) && s.Valid() && Enabled(code, s, Execute)
    ensures s'.Valid()
  {
    var inst := code[s.core.pc[s.cur]];
    var core := Advance(s.core, s.cur);
    var job := JobOf(core, s.cur, inst);
    if job.Some? then
      s.(core := core,
         ready := if job.value.wake.Some? then s.ready[s.cur := false] else s.ready,
         phase := Posting(QueueOf(inst.opcode), job.value))
    else
      s.(core := Exec(core, s.cur, inst), cur := if Yields(inst, job) then NextContext(s.cur) else s.cur)
  }

  function Step(code: Code, s: State, e: Event): (s': State)
    requires CodeFits(code) && s.Valid() && Enabled(code, s, e)
    ensures s'.Valid()
  {
    match e
    case Scan => s.(cur := NextContext(s.cur))
    case Execute => Executed(code, s)
    case Put =>
      var q, job := s.phase.q, s.phase.job;
      s.(queues := s.queues[q := s.queues[q] + [job]], phase := if job.wake.Some? then Yielding else Fetching)
    case Yield => s.(cur := NextContext(s.cur), phase := Fetching)
    case Take(q) => s.(workers := s.workers[q := Busy(s.queues[q][0], 0)], queues := s.queues[q := s.queues[q][1..]])
    case Copy(q) =>
      var w := s.workers[q];
      s.(core := CopyWord(s.core, q, Rest(w.job, w.done)), workers := s.workers[q := Busy(w.job, w.done + 1)])
    case Receive(size, ram) =>
      s.(core := s.core.(regs := s.core.regs[s.workers[RX_QUEUE].job.sizeReg := size],
                         mems := s.core.mems[RAM_QUEUE := ram]))
    case Finish(q) => s.(ready := Wake(s.ready, s.workers[q].job.wake), workers := s.workers[q := Idle])
    case Discard =>
      var wake := s.workers[PKT_IN_QUEUE].job.wake;
      s.(workers := s.workers[PKT_IN_QUEUE := Idle], lost := if wake.Some? then s.lost + [wake.value] else s.lost)
    case HostCsr(i, v) => s.(core := s.core.(csrs := s.core.csrs[i := v]))
    case HostMemory(m, i, v) =>
      var mem: seq<Word> := s.core.mems[m][i := v];
      s.(core := s.core.(mems := s.core.mems[m := mem]))
  }

  /** A finite run of the machine. */
  predicate IsRun(code: Code, s: State, es: seq<Event>)
    requires CodeFits(code) && s.Valid()
    decreases |es|
  {
    es == [] || (Enabled(code, s, es[0]) && IsRun(code, Step(code, s, es[0]), es[1..]))
  }

  function After(code: Code, s: State, es: seq<Event>): (s': State)
    requires CodeFits(code) && s.Valid() && IsRun(code, s, es)
    ensures s'.Valid()
    decreases |es|
  {
    if es == [] then s else After(code, Step(code, s, es[0]), es[1..])
  }

  /** The engine as constructed: every context ready, no job anywhere. */
  function Start(core: Core): (s: State)
    requires core.Valid()
    ensures s.Valid()
  {
    State(core, 0, [true, true, true, true], Fetching, [[], [], [], [], []], [Idle, Idle, Idle, Idle, Idle], [])
  }

  /** Executing an instruction moves the program counter of its context to the next instruction, or, for a
      branch, possibly to its target; the other contexts' stay. A memory or FIFO instruction with a job
      changes nothing else of the core, and hands over exactly that job; any other hands over none. Only
      CTX_ARB passes the processor on at once. */
  lemma ExecuteProceeds(code: Code, s: State)
    requires CodeFits(code) && s.Valid() && Enabled(code, s, Execute)
    ensures var s' := Step(code, s, Execute);
            var pc := s.core.pc[s.cur];
            var inst, next := code[pc], if pc + 1 < WORD then pc + 1 else 0;
            && (forall c :: 0 <= c < CONTEXTS && c != s.cur ==> s'.core.pc[c] == s.core.pc[c])
            && (s'.core.pc[s.cur] == next || (inst.Branch? && s'.core.pc[s.cur] == inst.target))
            && s'.queues == s.queues && s'.workers == s.workers
            && (s'.phase.Posting? <==> FetchedJob(code, s).Some?)
            && (s'.phase.Posting? ==>
                  s'.core == s.core.(pc := s.core.pc[s.cur := next]) && s'.phase.job == FetchedJob(code, s).value
                  && s'.phase.q == QueueOf(inst.opcode))
            && s'.cur == if inst == NoArg(CTX_ARB) then (s.cur + 1) % 4 else s.cur
  {
    hide AbsoluteRegister, AluResult, ShiftedResult, ImmediateValue, LoadField, PerformRot;
  }

  // ------------------------------------------------- who is waiting for whom

  function Wakes(wake: Option<nat>, c: nat): nat {
    if wake == Some(c) then 1 else 0
  }

  function WakesIn(jobs: seq<Job>, c: nat): nat {
    if jobs == [] then 0 else Wakes(jobs[0].wake, c) + WakesIn(jobs[1..], c)
  }

  function Held(s: State, q: nat, c: nat): nat
    requires s.Valid() && q < QUEUES
  {
    WakesIn(s.queues[q], c) + if s.workers[q].Busy? then Wakes(s.workers[q].job.wake, c) else 0
  }

  /** The jobs, queued, being posted or being worked on, whose callback makes `c` ready. */
  function Outstanding(s: State, c: nat): nat
    requires s.Valid()
  {
    Held(s, 0, c) + Held(s, 1, c) + Held(s, 2, c) + Held(s, 3, c) + Held(s, 4, c)
    + if s.phase.Posting? then Wakes(s.phase.job.wake, c) else 0
  }

  function Losses(lost: seq<nat>, c: nat): nat {
    if lost == [] then 0 else (if lost[0] == c then 1 else 0) + Losses(lost[1..], c)
  }

  /** A context is asleep exactly when one callback for it is still to come or was lost. */
  predicate Accounted(s: State, c: nat)
    requires s.Valid() && c < CONTEXTS
  {
    Outstanding(s, c) + Losses(s.lost, c) == if s.ready[c] then 0 else 1
  }

  lemma {:induction false} WakesInConcat(a: seq<Job>, b: seq<Job>, c: nat)
    ensures WakesIn(a + b, c) == WakesIn(a, c) + WakesIn(b, c)
  {
    if a == [] {
      assert a + b == b;
    } else {
      WakesInConcat(a[1..], b, c);
      assert (a + b)[1..] == a[1..] + b;
    }
  }

  lemma {:induction false} LossesAppend(a: seq<nat>, x: nat, c: nat)
    ensures Losses(a + [x], c) == Losses(a, c) + if x == c then 1 else 0
  {
    if a != [] {
      LossesAppend(a[1..], x, c);
      assert (a + [x])[1..] == a[1..] + [x];
    }
  }

  lemma ExecuteKeepsAccount(code: Code, s: State, c: nat)
    requires CodeFits(code) && s.Valid() && Enabled(code, s, Execute)
    requires c < CONTEXTS && Accounted(s, c)
    ensures Accounted(Step(code, s, Execute), c)
  {
    var s' := Executed(code, s);
    assert forall q :: 0 <= q < QUEUES ==> Held(s', q, c) == Held(s, q, c);
  }

  lemma PutHeld(s: State, s': State, q: nat, c: nat)
    requires s.Valid() && s'.Valid() && q < QUEUES
    requires s.phase.Posting? && s.phase.q < QUEUES && s'.workers == s.workers
    requires s'.queues == s.queues[s.phase.q := s.queues[s.phase.q] + [s.phase.job]]
    ensures Held(s', q, c) == Held(s, q, c) + if q == s.phase.q then Wakes(s.phase.job.wake, c) else 0
  {
    WakesInConcat(s.queues[q], [s.phase.job], c);
    assert WakesIn([s.phase.job], c) == Wakes(s.phase.job.wake, c);
  }

  lemma PutKeepsAccount(code: Code, s: State, c: nat)
    requires CodeFits(code) && s.Valid() && Enabled(code, s, Put)
    requires c < CONTEXTS && Accounted(s, c)
    ensures Accounted(Step(code, s, Put), c)
  {
    var s' := Step(code, s, Put);
    PutHeld(s, s', 0, c);
    PutHeld(s, s', 1, c);
    PutHeld(s, s', 2, c);
    PutHeld(s, s', 3, c);
    PutHeld(s, s', 4, c);
  }

  lemma TakeKeepsAccount(code: Code, s: State, p: nat, c: nat)
    requires CodeFits(code) && s.Valid() && Enabled(code, s, Take(p))
    requires c < CONTEXTS && Accounted(s, c)
    ensures Accounted(Step(code, s, Take(p)), c)
  {
    var s' := Step(code, s, Take(p));
    assert forall q :: 0 <= q < QUEUES ==> Held(s', q, c) == Held(s, q, c);
  }

  /** A worker letting go of its job. */
  lemma ReleaseOutstanding(s: State, s': State, p: nat, c: nat)
    requires s.Valid() && s'.Valid() && p < QUEUES && s.workers[p].Busy?
    requires s'.workers == s.workers[p := Idle] && s'.queues == s.queues && s'.phase == s.phase
    ensures Outstanding(s, c) == Outstanding(s', c) + Wakes(s.workers[p].job.wake, c)
  {
    assert Held(s, p, c) == Held(s', p, c) + Wakes(s.workers[p].job.wake, c);
    assert forall q :: 0 <= q < QUEUES && q != p ==> Held(s', q, c) == Held(s, q, c);
  }

  lemma FinishKeepsAccount(code: Code, s: State, p: nat, c: nat)
    requires CodeFits(code) && s.Valid() && Enabled(code, s, Finish(p))
    requires c < CONTEXTS && Accounted(s, c)
    ensures Accounted(Step(code, s, Finish(p)), c)
  {
    ReleaseOutstanding(s, Step(code, s, Finish(p)), p, c);
  }

  lemma DiscardKeepsAccount(code: Code, s: State, c: nat)
    requires CodeFits(code) && s.Valid() && Enabled(code, s, Discard)
    requires c < CONTEXTS && Accounted(s, c)
    ensures Accounted(Step(code, s, Discard), c)
  {
    ReleaseOutstanding(s, Step(code, s, Discard), PKT_IN_QUEUE, c);
    var wake := s.workers[PKT_IN_QUEUE].job.wake;
    if wake.Some? {
      LossesAppend(s.lost, wake.value, c);
    }
  }

  lemma OtherKeepsAccount(code: Code, s: State, e: Event, c: nat)
    requires CodeFits(code) && s.Valid() && Enabled(code, s, e)
    requires !e.Execute? && !e.Put? && !e.Take? && !e.Finish? && !e.Discard?
    requires c < CONTEXTS && Accounted(s, c)
    ensures Accounted(Step(code, s, e), c)
  {
    var s' := Step(code, s, e);
    assert forall q :: 0 <= q < QUEUES ==> Held(s', q, c) == Held(s, q, c);
  }

  lemma StepKeepsAccount(code: Code, s: State, e: Event, c: nat)
    requires CodeFits(code) && s.Valid() && Enabled(code, s, e)
    requires c < CONTEXTS && Accounted(s, c)
    ensures Accounted(Step(code, s, e), c)
  {
    match e
    case Execute => ExecuteKeepsAccount(code, s, c);
    case Put => PutKeepsAccount(code, s, c);
    case Take(q) => TakeKeepsAccount(code, s, q, c);
    case Finish(q) => FinishKeepsAccount(code, s, q, c);
    case Discard => DiscardKeepsAccount(code, s, c);
    case _ => OtherKeepsAccount(code, s, e, c);
  }

  lemma {:induction false} RunKeepsAccount(code: Code, s: State, es: seq<Event>, c: nat)
    requires CodeFits(code) && s.Valid() && IsRun(code, s, es)
    requires c < CONTEXTS && Accounted(s, c)
    ensures Accounted(After(code, s, es), c)
    decreases |es|
  {
    if es != [] {
      StepKeepsAccount(code, s, es[0], c);
      RunKeepsAccount(code, Step(code, s, es[0]), es[1..], c);
    }
  }

  lemma {:induction false} LossesNeedDiscard(code: Code, s: State, es: seq<Event>)
    requires CodeFits(code) && s.Valid() && IsRun(code, s, es)
    requires Discard !in es
    ensures After(code, s, es).lost == s.lost
    decreases |es|
  {
    if es != [] {
      assert es[0] != Discard;
      LossesNeedDiscard(code, Step(code, s, es[0]), es[1..]);
    }
  }

  /** The CTX_SWAP protocol, for every program and every interleaving: at most one callback is
      outstanding per context, a context being executed has none, and a sleeping context has exactly
      one unless its job was dropped; nothing is dropped while the guest buffers can be written. */
  lemma WakeUpInvariant(code: Code, core: Core, es: seq<Event>, c: nat)
    requires CodeFits(code) && core.Valid() && IsRun(code, Start(core), es) && c < CONTEXTS
    ensures var s := After(code, Start(core), es);
            && Outstanding(s, c) <= 1
            && (Enabled(code, s, Execute) && s.cur == c ==> Outstanding(s, c) == 0)
            && (!s.ready[c] ==> (Outstanding(s, c) == 1 <==> Losses(s.lost, c) == 0))
            && (Discard !in es ==> (Outstanding(s, c) == 1 <==> !s.ready[c]))
  {
    RunKeepsAccount(code, Start(core), es, c);
    if Discard !in es {
      LossesNeedDiscard(code, Start(core), es);
    }
  }

  // ------------------------------------------------------------------ rotation

  function Distance(from: nat, to: nat): nat
    requires from < CONTEXTS && to < CONTEXTS
  {
    (to + CONTEXTS - from) % CONTEXTS
  }

  predicate IsYield(code: Code, s: State, e: Event)
    requires CodeFits(code) && s.Valid() && Enabled(code, s, e)
  {
    e.Yield? || (e.Execute? && Yields(code[s.core.pc[s.cur]], FetchedJob(code, s)) && FetchedJob(code, s).None?)
  }

  /** The number of yields in a run along which `c` stays ready and is not given the processor. */
  ghost predicate PassedOver(code: Code, s: State, es: seq<Event>, c: nat, turns: nat)
    requires CodeFits(code) && s.Valid() && IsRun(code, s, es) && c < CONTEXTS
    decreases |es|
  {
    && s.ready[c]
    && if es == [] then turns == 0
       else
         var d := if IsYield(code, s, es[0]) then 1 else 0;
         && (es[0].Execute? ==> s.cur != c)
         && d <= turns
         && PassedOver(code, Step(code, s, es[0]), es[1..], c, turns - d)
  }

  lemma StepApproaches(code: Code, s: State, e: Event, c: nat)
    requires CodeFits(code) && s.Valid() && Enabled(code, s, e) && c < CONTEXTS
    requires (s.phase.Fetching? || s.cur != c) && s.ready[c] && (e.Execute? ==> s.cur != c)
    ensures var s' := Step(code, s, e);
            && (if IsYield(code, s, e) then 1 else 0) + Distance(s'.cur, c) <= Distance(s.cur, c) <= 3
            && (s'.phase.Fetching? || s'.cur != c)
  {
    assert s.cur != c ==> Distance(NextContext(s.cur), c) + 1 == Distance(s.cur, c);
  }

  /** Every yield and every scan step brings a ready context closer: it is passed over by at most
      three yields. */
  lemma {:induction false} RotationBound(code: Code, s: State, es: seq<Event>, c: nat, turns: nat)
    requires CodeFits(code) && s.Valid() && IsRun(code, s, es) && c < CONTEXTS
    requires s.phase.Fetching? || s.cur != c
    requires PassedOver(code, s, es, c, turns)
    ensures var s' := After(code, s, es);
            && turns + Distance(s'.cur, c) <= Distance(s.cur, c) <= 3
            && (s'.phase.Fetching? || s'.cur != c)
    decreases |es|
  {
    if es != [] {
      StepApproaches(code, s, es[0], c);
      var d := if IsYield(code, s, es[0]) then 1 else 0;
      RotationBound(code, Step(code, s, es[0]), es[1..], c, turns - d);
    }
  }

  /** After three yields by others, a context that has stayed ready is the next to execute. */
  lemma ThirdYieldSelects(code: Code, s: State, es: seq<Event>, c: nat)
    requires CodeFits(code) && s.Valid() && IsRun(code, s, es) && c < CONTEXTS
    requires s.phase.Fetching? || s.cur != c
    requires PassedOver(code, s, es, c, 3)
    ensures var s' := After(code, s, es);
            s'.cur == c && s'.phase.Fetching? && !Enabled(code, s', Scan)
  {
    RotationBound(code, s, es, c, 3);
    StillReady(code, s, es, c, 3);
  }

  lemma {:induction false} StillReady(code: Code, s: State, es: seq<Event>, c: nat, turns: nat)
    requires CodeFits(code) && s.Valid() && IsRun(code, s, es) && c < CONTEXTS
    requires PassedOver(code, s, es, c, turns)
    ensures After(code, s, es).ready[c]
    decreases |es|
  {
    if es != [] {
      var d := if IsYield(code, s, es[0]) then 1 else 0;
      StillReady(code, Step(code, s, es[0]), es[1..], c, turns - d);
    }
  }
}
