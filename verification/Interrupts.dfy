/** The I/O APIC: a linked queue of pending interrupts, and their injection into the vCPUs. */
module Interrupts {
  import opened Words
  import opened Vcpus
  import VcpuSleep

  const QUEUE_MAX_INTERRUPTS: nat := 256
  const NR_MAX_IOAPIC_IRQS: nat := 32
  const LAPIC_OFF_IPI: nat := 4
  const LAPIC_OFF_EOI: nat := 8

  // ------------------------------------------------------------ the linked queue

  class Entry {
    const irq: Byte
    var next: Entry?

    constructor (irq: Byte)
      ensures this.irq == irq && next == null
    {
      this.irq := irq;
      next := null;
    }
  }

  ghost function NodeAt(nodes: seq<Entry>, i: nat): Entry? {
    if i < |nodes| then nodes[i] else null
  }

  class Ioapic {
    var nrPending: nat
    var interruptQueue: Entry?
    ghost var nodes: seq<Entry>

    /** The nodes reached from the head are exactly `nodes`, and nrPending counts them. */
    ghost predicate Valid()
      reads this, nodes
    {
      && nrPending == |nodes| <= QUEUE_MAX_INTERRUPTS
      && interruptQueue == NodeAt(nodes, 0)
      && (forall i :: 0 <= i < |nodes| ==> nodes[i].next == NodeAt(nodes, i + 1))
      && (forall i, j :: 0 <= i < j < |nodes| ==> nodes[i] != nodes[j])
    }

    ghost function Irqs(): seq<Byte>
      reads this
    {
      seq(|nodes|, i requires 0 <= i < |nodes| reads this => nodes[i].irq)
    }

    constructor ()
      ensures Valid() && Irqs() == []
    {
      nrPending, interruptQueue, nodes := 0, null, [];
    }

    /** `memory` tells whether calloc succeeds. */
    method QueueInterrupt(irq: Byte, memory: bool) returns (ok: bool)
      requires Valid()
      modifies this, nodes
      ensures Valid() && fresh(set n | n in nodes && n !in old(nodes))
      ensures ok <==> |old(Irqs())| < QUEUE_MAX_INTERRUPTS && memory
      ensures Irqs() == if ok then old(Irqs()) + [irq] else old(Irqs())
    {
      if nrPending >= QUEUE_MAX_INTERRUPTS || !memory {
        return false;
      }
      var entry := new Entry(irq);
      if interruptQueue == null {
        interruptQueue := entry;
      } else {
        var cur := interruptQueue;
        ghost var k := 0;
        while cur.next != null
          invariant 0 <= k < |nodes| && cur == nodes[k]
          decreases |nodes| - k
        {
          cur := cur.next;
          k := k + 1;
        }
        cur.next := entry;
      }
      nodes := nodes + [entry];
      nrPending := nrPending + 1;
      return true;
    }

    method DequeueInterrupt() returns (entry: Entry?)
      requires Valid()
      modifies this
      ensures Valid()
      ensures entry == null <==> old(Irqs()) == []
      ensures entry == null ==> Irqs() == []
      ensures entry != null ==> [entry.irq] + Irqs() == old(Irqs())
    {
      if nrPending == 0 || interruptQueue == null {
        return null;
      }
      entry := interruptQueue;
      interruptQueue := entry.next;
      nodes := nodes[1..];
      nrPending := nrPending - 1;
    }

    method HaveInterrupts() returns (r: bool)
      requires Valid()
      ensures r <==> Irqs() != []
    {
      r := nrPending != 0;
    }
  }

  // --------------------------------------------------------------- the ISR bits

  lemma {:induction false} BitOfPow2(k: nat, j: nat)
    ensures Bit(Pow2(k), j) <==> j == k
    decreases k
  {
    if k > 0 {
      assert Pow2(k) % 2 == 0 && Pow2(k) / 2 == Pow2(k - 1);
      if j > 0 {
        BitOfPow2(k - 1, j - 1);
      }
    } else if j > 0 {
      BitOfZero(j - 1);
    }
  }

  lemma {:induction false} BitOfZero(j: nat)
    ensures !Bit(0, j)
  {
    if j > 0 {
      BitOfZero(j - 1);
    }
  }

  lemma {:induction false} Pow2Below(k: nat, n: nat)
    requires k < n
    ensures Pow2(k) < Pow2(n)
    decreases n
  {
    if k < n - 1 {
      Pow2Below(k, n - 1);
    }
  }

  function Mask(k: nat): Word
    requires k < 32
  {
    ShiftLeft(1, k)
  }

  lemma MaskIsPow2(k: nat)
    requires k < 32
    ensures Mask(k) == Pow2(k)
  {
    hide Pow2;
    Pow2Bits();
    Pow2Below(k, 32);
  }

  lemma BitOfMask(k: nat, j: nat)
    requires k < 32
    ensures Bit(Mask(k), j) <==> j == k
  {
    hide Bit;
    MaskIsPow2(k);
    BitOfPow2(k, j);
  }

  /** isr |= 1 << k sets that bit and no other. */
  lemma BitAfterSet(isr: Word, k: nat, j: nat)
    requires k < 32 && j < 32
    ensures Bit(Or(isr, Mask(k)), j) <==> Bit(isr, j) || j == k
  {
    BitOfBitwise((x, y) => x || y, isr, Mask(k), 32, j);
    BitOfMask(k, j);
  }

  /** isr &= ~(1 << k) clears that bit and no other. */
  lemma BitAfterClear(isr: Word, k: nat, j: nat)
    requires k < 32 && j < 32
    ensures Bit(And(isr, Not(Mask(k))), j) <==> Bit(isr, j) && j != k
  {
    BitOfBitwise((x, y) => x && y, isr, Not(Mask(k)), 32, j);
    BitOfBitwise((x, y) => !x, Mask(k), 0, 32, j);
    BitOfMask(k, j);
  }

  // ------------------------------------------------------------------- delivery

  /** What delivery sees of a vCPU. */
  datatype Local = Local(mark: Mark, isr: Word)

  datatype Note = Injected(vcpu: nat, irq: nat, vector: nat) | Ended(vcpu: nat, irq: nat)

  function Destination(entry: Word): nat {
    entry / 0x1_0000
  }

  /** The vCPU as ioApicSendInterrupt leaves it before the injection: halted ones are woken. */
  function Awake(local: Local): Local {
    if local.mark.Halted? then local.(mark := Running) else local
  }

  /** ioApicSendInterrupt; `kvmOk` tells whether KVM accepts the interrupt. */
  function Sent(locals: seq<Local>, redir: seq<Word>, irq: Byte, kvmOk: bool): (r: (seq<Local>, Option<Note>))
    requires |redir| == NR_MAX_IOAPIC_IRQS
    ensures |r.0| == |locals|
    ensures r.1.Some? ==> r.1.value.Injected? && r.1.value.irq == irq % 32
  {
    var k := irq % 32;
    var dest := Destination(redir[k]);
    if dest >= |locals| || locals[dest].mark.NotStarted? then (locals, None)
    else
      var local := Awake(locals[dest]);
      if Bit(local.isr, k) || !kvmOk then (locals[dest := local], None)
      else (locals[dest := local.(isr := Or(local.isr, Mask(k)))], Some(Injected(dest, k, redir[k] % 0x1_0000)))
  }

  function Ending(local: Local, vector: Word): Local {
    local.(isr := And(local.isr, Not(Mask(vector % 32))))
  }

  // ----------------------------------------------------------------- in place

  function LocalOf(v: Vcpu): Local
    reads v
  {
    Local(v.mark, v.isr)
  }

  function Locals(vcpus: seq<Vcpu>): (r: seq<Local>)
    reads vcpus
    ensures |r| == |vcpus|
  {
    seq(|vcpus|, i requires 0 <= i < |vcpus| reads vcpus => LocalOf(vcpus[i]))
  }

  class Hypervisor {
    const ioapic: Ioapic
    const redir: array<Word>
    const vcpus: seq<Vcpu>

    ghost predicate Valid()
      reads this, ioapic, ioapic.nodes
    {
      redir.Length == NR_MAX_IOAPIC_IRQS && Distinct(vcpus) && ioapic.Valid()
    }

    constructor (vcpus: seq<Vcpu>)
      requires Distinct(vcpus)
      ensures Valid() && this.vcpus == vcpus && ioapic.Irqs() == []
      ensures forall i :: 0 <= i < redir.Length ==> redir[i] == 0
    {
      this.vcpus := vcpus;
      redir := new Word[NR_MAX_IOAPIC_IRQS](_ => 0);
      ioapic := new Ioapic();
    }

    method SendInterrupt(irq: Byte, kvmOk: bool) returns (note: Option<Note>)
      requires Valid()
      modifies vcpus
      ensures (Locals(vcpus), note) == Sent(old(Locals(vcpus)), redir[..], irq, kvmOk)
    {
      var k := irq % 32;
      var entry := redir[k];
      var dest := Destination(entry);
      if dest >= |vcpus| {
        return None;
      }
      var target := vcpus[dest];
      if target.mark.NotStarted? {
        return None;
      }
      if target.mark.Halted? {
        target.mark := Running;
      }
      assert Locals(vcpus) == old(Locals(vcpus))[dest := Awake(old(LocalOf(target)))];
      if Bit(target.isr, k) || !kvmOk {
        return None;
      }
      target.isr := Or(target.isr, Mask(k));
      assert Locals(vcpus) == old(Locals(vcpus))[dest := LocalOf(target)];
      note := Some(Injected(dest, k, entry % 0x1_0000));
    }

    /** `ready` is ready_for_interrupt_injection of the vCPU about to enter the guest. */
    method CheckAndSendInterrupt(v: nat, ready: bool, kvmOk: bool) returns (note: Option<Note>)
      requires Valid() && v < |vcpus|
      modifies vcpus, ioapic
      ensures Valid()
      ensures old(ioapic.Irqs()) != [] && ready ==>
                && ioapic.Irqs() == old(ioapic.Irqs())[1..]
                && (Locals(vcpus), note) == Sent(old(Locals(vcpus)), redir[..], old(ioapic.Irqs())[0], kvmOk)
      ensures old(ioapic.Irqs()) == [] || !ready ==>
                ioapic.Irqs() == old(ioapic.Irqs()) && Locals(vcpus) == old(Locals(vcpus)) && note == None
      ensures old(ioapic.Irqs()) != [] && !ready ==> vcpus[v].window
      ensures old(ioapic.Irqs()) == [] && ready ==> !vcpus[v].window
    {
      note := None;
      var pending := ioapic.HaveInterrupts();
      if pending {
        if ready {
          var entry := ioapic.DequeueInterrupt();
          if entry == null {
            return;
          }
          note := SendInterrupt(entry.irq, kvmOk);
        } else {
          vcpus[v].window := true;
        }
      } else if ready {
        vcpus[v].window := false;
      }
    }

    /** A write of the guest to the local APIC page of vCPU v. */
    method LapicMmioWrite(v: nat, offset: nat, vector: Word)
      requires Valid() && v < |vcpus|
      modifies vcpus
      ensures offset == LAPIC_OFF_EOI ==>
                Locals(vcpus) == old(Locals(vcpus))[v := Ending(old(LocalOf(vcpus[v])), vector)]
      ensures offset == LAPIC_OFF_IPI ==>
                Marks(vcpus) == if vector % 4 < |vcpus| then old(Marks(vcpus))[vector % 4 := Running]
                                else old(Marks(vcpus))
      ensures offset != LAPIC_OFF_EOI ==> forall i :: 0 <= i < |vcpus| ==> vcpus[i].isr == old(vcpus[i].isr)
      ensures offset != LAPIC_OFF_EOI && offset != LAPIC_OFF_IPI ==>
                forall i :: 0 <= i < |vcpus| ==> unchanged(vcpus[i])
    {
      if offset == LAPIC_OFF_IPI {
        DoSipi(vcpus, vector);
        assert forall i :: 0 <= i < |vcpus| ==> vcpus[i].isr == old(vcpus[i].isr);
      } else if offset == LAPIC_OFF_EOI {
        vcpus[v].isr := And(vcpus[v].isr, Not(Mask(vector % 32)));
      }
    }
  }

  // ------------------------------------------------------------- state machine

  /** `hands[t]` is the interrupt that thread t has dequeued and not yet sent. The other fields are
      history: what was accepted, what was dequeued, what became of it, and the injections and EOIs. */
  datatype State = State(
    queue: seq<Byte>, hands: seq<Option<Byte>>, locals: seq<Local>, redir: seq<Word>,
    accepted: seq<Byte>, handed: seq<Byte>, injected: seq<Byte>, dropped: seq<Byte>, notes: seq<Note>)

  datatype Event =
    | Raise(irq: Byte, memory: bool)      // ioApicThread: queueInterrupt
    | Take(t: nat)                        // checkAndSendInterrupt: dequeueInterrupt
    | Deliver(t: nat, kvmOk: bool)        // checkAndSendInterrupt: ioApicSendInterrupt
    | Eoi(t: nat, vector: Word)
    | Program(k: nat, entry: Word)        // a write to the redirection table
    | Remark(t: nat, mark: Mark)          // vCPU state changes made elsewhere

  ghost predicate Shaped(s: State) {
    |s.redir| == NR_MAX_IOAPIC_IRQS && |s.hands| == |s.locals|
  }

  ghost predicate Enabled(s: State, e: Event) {
    match e
    case Raise(_, _) => true
    case Take(t) => t < |s.hands| && s.hands[t].None? && s.queue != []
    case Deliver(t, _) => t < |s.hands| && s.hands[t].Some? && |s.redir| == NR_MAX_IOAPIC_IRQS
    case Eoi(t, _) => t < |s.locals|
    case Program(k, _) => k < |s.redir|
    case Remark(t, _) => t < |s.locals|
  }

  ghost function Step(s: State, e: Event): State
    requires Enabled(s, e)
  {
    match e
    case Raise(irq, memory) =>
      if |s.queue| >= QUEUE_MAX_INTERRUPTS || !memory then s
      else s.(queue := s.queue + [irq], accepted := s.accepted + [irq])
    case Take(t) =>
      s.(queue := s.queue[1..], hands := s.hands[t := Some(s.queue[0])], handed := s.handed + [s.queue[0]])
    case Deliver(t, kvmOk) =>
      var irq := s.hands[t].value;
      var (locals, note) := Sent(s.locals, s.redir, irq, kvmOk);
      s.(hands := s.hands[t := None], locals := locals, notes := s.notes + AsSeq(note),
         injected := s.injected + if note.Some? then [irq] else [],
         dropped := s.dropped + if note.Some? then [] else [irq])
    case Eoi(t, vector) =>
      s.(locals := s.locals[t := Ending(s.locals[t], vector)], notes := s.notes + [Ended(t, vector % 32)])
    case Program(k, entry) => s.(redir := s.redir[k := entry])
    case Remark(t, mark) => s.(locals := s.locals[t := s.locals[t].(mark := mark)])
  }

  ghost predicate IsRun(s: State, es: seq<Event>)
    decreases |es|
  {
    es == [] || (Enabled(s, es[0]) && IsRun(Step(s, es[0]), es[1..]))
  }

  ghost function After(s: State, es: seq<Event>): State
    requires IsRun(s, es)
    decreases |es|
  {
    if es == [] then s else After(Step(s, es[0]), es[1..])
  }

  /** `n` vCPUs, nothing queued, every in-service register clear. */
  ghost predicate Initial(s: State) {
    && Shaped(s) && s.queue == [] && s.accepted == [] && s.handed == []
    && s.injected == [] && s.dropped == [] && s.notes == []
    && (forall v :: 0 <= v < |s.locals| ==> s.locals[v].isr == 0)
    && (forall t :: 0 <= t < |s.hands| ==> s.hands[t].None?)
  }

  /** The history says that an injection of irq k into vCPU v has not been ended. */
  predicate Serving(notes: seq<Note>, v: nat, k: nat)
    decreases |notes|
  {
    if notes == [] then false
    else
      var last := notes[|notes| - 1];
      if last.vcpu == v && last.irq == k then last.Injected?
      else Serving(notes[..|notes| - 1], v, k)
  }

  /** Nothing is injected while it is being served. */
  ghost predicate Alternates(notes: seq<Note>) {
    forall i :: 0 <= i < |notes| && notes[i].Injected? ==> !Serving(notes[..i], notes[i].vcpu, notes[i].irq)
  }

  /** The in-service registers are exactly what the history says. */
  ghost predicate InService(locals: seq<Local>, notes: seq<Note>) {
    forall v, k :: 0 <= v < |locals| && 0 <= k < 32 ==> (Bit(locals[v].isr, k) <==> Serving(notes, v, k))
  }

  ghost predicate Queued(s: State) {
    && s.handed + s.queue == s.accepted
    && |s.queue| <= QUEUE_MAX_INTERRUPTS
  }

  ghost function InHand(hands: seq<Option<Byte>>): multiset<Byte>
    decreases |hands|
  {
    if hands == [] then multiset{}
    else InHand(hands[1..]) + if hands[0].Some? then multiset{hands[0].value} else multiset{}
  }

  /** The interrupt lines of the injections, in order. */
  function InjectedLines(notes: seq<Note>): seq<nat>
    decreases |notes|
  {
    if notes == [] then []
    else
      var last := notes[|notes| - 1];
      InjectedLines(notes[..|notes| - 1]) + if last.Injected? then [last.irq] else []
  }

  function Lines(irqs: seq<Byte>): seq<nat> {
    seq(|irqs|, i requires 0 <= i < |irqs| => irqs[i] % 32)
  }

  /** Whatever was dequeued is in a hand, or was injected, with an injection to show for it, or dropped. */
  ghost predicate Accounted(s: State) {
    && multiset(s.handed) == InHand(s.hands) + multiset(s.injected) + multiset(s.dropped)
    && InjectedLines(s.notes) == Lines(s.injected)
  }

  ghost predicate Inv(s: State) {
    Shaped(s) && Queued(s) && Accounted(s) && InService(s.locals, s.notes) && Alternates(s.notes)
  }

  lemma {:induction false} Grasp(hands: seq<Option<Byte>>, t: nat, irq: Byte)
    requires t < |hands| && hands[t].None?
    ensures InHand(hands[t := Some(irq)]) == InHand(hands) + multiset{irq}
    decreases |hands|
  {
    if t == 0 {
      assert hands[t := Some(irq)][1..] == hands[1..];
    } else {
      Grasp(hands[1..], t - 1, irq);
      assert hands[t := Some(irq)][1..] == hands[1..][t - 1 := Some(irq)];
    }
  }

  lemma InjectedLinesAfter(notes: seq<Note>, note: Note)
    ensures InjectedLines(notes + [note]) == InjectedLines(notes) + if note.Injected? then [note.irq] else []
  {
    assert (notes + [note])[..|notes|] == notes;
  }

  lemma TakeAccounts(s: State, t: nat)
    requires Accounted(s) && Enabled(s, Take(t))
    ensures Accounted(Step(s, Take(t)))
  {
    hide InHand, InjectedLines, Lines;
    Grasp(s.hands, t, s.queue[0]);
    assert multiset(s.handed + [s.queue[0]]) == multiset(s.handed) + multiset{s.queue[0]};
  }

  lemma Shifted(handed: multiset<Byte>, inHand: multiset<Byte>, injected: multiset<Byte>, dropped: multiset<Byte>,
                irq: Byte)
    requires handed == inHand + multiset{irq} + injected + dropped
    ensures handed == inHand + (injected + multiset{irq}) + dropped
    ensures handed == inHand + injected + (dropped + multiset{irq})
  {
  }

  lemma DeliverAccounts(s: State, t: nat, kvmOk: bool)
    requires Accounted(s) && Enabled(s, Deliver(t, kvmOk))
    ensures Accounted(Step(s, Deliver(t, kvmOk)))
  {
    hide InHand, InjectedLines, Sent;
    var irq := s.hands[t].value;
    var note := Sent(s.locals, s.redir, irq, kvmOk).1;
    var s' := Step(s, Deliver(t, kvmOk));
    assert s'.hands[t := Some(irq)] == s.hands;
    Grasp(s'.hands, t, irq);
    Shifted(multiset(s.handed), InHand(s'.hands), multiset(s.injected), multiset(s.dropped), irq);
    if note.Some? {
      InjectedLinesAfter(s.notes, note.value);
      assert Lines(s'.injected) == Lines(s.injected) + [irq % 32];
      assert s'.dropped == s.dropped;
    } else {
      assert s'.notes == s.notes && s'.injected == s.injected;
    }
  }

  lemma ServingAfter(notes: seq<Note>, note: Note, v: nat, k: nat)
    ensures Serving(notes + [note], v, k) <==>
            if note.vcpu == v && note.irq == k then note.Injected? else Serving(notes, v, k)
  {
    assert (notes + [note])[..|notes|] == notes;
  }

  lemma AlternatesAfter(notes: seq<Note>, note: Note)
    requires Alternates(notes) && (note.Injected? ==> !Serving(notes, note.vcpu, note.irq))
    ensures Alternates(notes + [note])
  {
    var more := notes + [note];
    forall i | 0 <= i < |more| && more[i].Injected?
      ensures !Serving(more[..i], more[i].vcpu, more[i].irq)
    {
      assert more[..i] == notes[..i];
      assert i == |notes| ==> notes[..i] == notes;
    }
  }

  lemma EoiKeeps(locals: seq<Local>, notes: seq<Note>, t: nat, vector: Word)
    requires t < |locals| && InService(locals, notes) && Alternates(notes)
    ensures InService(locals[t := Ending(locals[t], vector)], notes + [Ended(t, vector % 32)])
    ensures Alternates(notes + [Ended(t, vector % 32)])
  {
    hide Bit, Serving, And, Not, Mask;
    var note := Ended(t, vector % 32);
    AlternatesAfter(notes, note);
    var locals' := locals[t := Ending(locals[t], vector)];
    forall v, k | 0 <= v < |locals'| && 0 <= k < 32
      ensures Bit(locals'[v].isr, k) <==> Serving(notes + [note], v, k)
    {
      ServingAfter(notes, note, v, k);
      BitAfterClear(locals[v].isr, vector % 32, k);
    }
  }

  lemma InjectKeeps(locals: seq<Local>, notes: seq<Note>, v0: nat, local: Local, k0: nat, vector: nat)
    requires v0 < |locals| && k0 < 32 && local.isr == Or(locals[v0].isr, Mask(k0)) && !Bit(locals[v0].isr, k0)
    requires InService(locals, notes) && Alternates(notes)
    ensures InService(locals[v0 := local], notes + [Injected(v0, k0, vector)])
    ensures Alternates(notes + [Injected(v0, k0, vector)])
  {
    hide Bit, Serving, Or, Mask;
    var note := Injected(v0, k0, vector);
    AlternatesAfter(notes, note);
    var locals' := locals[v0 := local];
    forall v, k | 0 <= v < |locals'| && 0 <= k < 32
      ensures Bit(locals'[v].isr, k) <==> Serving(notes + [note], v, k)
    {
      ServingAfter(notes, note, v, k);
      BitAfterSet(locals[v].isr, k0, k);
    }
  }

  lemma DeliverKeeps(locals: seq<Local>, notes: seq<Note>, redir: seq<Word>, irq: Byte, kvmOk: bool)
    requires |redir| == NR_MAX_IOAPIC_IRQS && InService(locals, notes) && Alternates(notes)
    ensures var (locals', note) := Sent(locals, redir, irq, kvmOk);
            InService(locals', notes + AsSeq(note)) && Alternates(notes + AsSeq(note))
  {
    hide Bit, Serving, Or, Mask, Alternates;
    var (locals', note) := Sent(locals, redir, irq, kvmOk);
    if note.Some? {
      var dest := Destination(redir[irq % 32]);
      InjectKeeps(locals, notes, dest, locals'[dest], irq % 32, note.value.vector);
    } else {
      assert notes + [] == notes;
      assert forall v :: 0 <= v < |locals| ==> locals'[v].isr == locals[v].isr;
    }
  }

  lemma StepKeepsAccount(s: State, e: Event)
    requires Accounted(s) && Enabled(s, e)
    ensures Accounted(Step(s, e))
  {
    hide InHand, InjectedLines, Lines, Sent, Ending;
    match e
    case Raise(_, _) =>
    case Take(t) => TakeAccounts(s, t);
    case Deliver(t, kvmOk) => DeliverAccounts(s, t, kvmOk);
    case Eoi(t, vector) => InjectedLinesAfter(s.notes, Ended(t, vector % 32));
    case Program(_, _) =>
    case Remark(_, _) =>
  }

  lemma StepKeepsInv(s: State, e: Event)
    requires Inv(s) && Enabled(s, e)
    ensures Inv(Step(s, e))
  {
    hide Bit, Serving, Alternates, Ending, Accounted;
    StepKeepsAccount(s, e);
    match e
    case Raise(irq, memory) =>
      assert s.handed + (s.queue + [irq]) == s.handed + s.queue + [irq];
    case Take(t) =>
      assert s.handed + [s.queue[0]] + s.queue[1..] == s.handed + s.queue;
    case Deliver(t, kvmOk) =>
      DeliverKeeps(s.locals, s.notes, s.redir, s.hands[t].value, kvmOk);
    case Eoi(t, vector) =>
      EoiKeeps(s.locals, s.notes, t, vector);
    case Program(_, _) =>
    case Remark(_, _) =>
  }

  lemma {:induction false} RunKeepsInv(s: State, es: seq<Event>)
    requires Inv(s) && IsRun(s, es)
    ensures Inv(After(s, es))
    decreases |es|
  {
    hide Inv, Step, Enabled;
    if es != [] {
      StepKeepsInv(s, es[0]);
      RunKeepsInv(Step(s, es[0]), es[1..]);
    }
  }

  lemma {:induction false} EmptyHands(hands: seq<Option<Byte>>)
    requires forall t :: 0 <= t < |hands| ==> hands[t].None?
    ensures InHand(hands) == multiset{}
    decreases |hands|
  {
    if hands != [] {
      EmptyHands(hands[1..]);
    }
  }

  lemma InitialInv(s: State)
    requires Initial(s)
    ensures Inv(s)
  {
    EmptyHands(s.hands);
    forall v, k | 0 <= v < |s.locals| && 0 <= k < 32
      ensures Bit(s.locals[v].isr, k) <==> Serving(s.notes, v, k)
    {
      BitOfZero(k);
    }
  }

  /** What was injected at i and is no longer served has been ended in between. */
  lemma {:induction false} EndedBetween(notes: seq<Note>, i: nat)
    requires i < |notes| && notes[i].Injected? && !Serving(notes, notes[i].vcpu, notes[i].irq)
    ensures exists j :: i < j < |notes| && notes[j] == Ended(notes[i].vcpu, notes[i].irq)
    decreases |notes|
  {
    var last := |notes| - 1;
    if !(notes[last].vcpu == notes[i].vcpu && notes[last].irq == notes[i].irq) {
      EndedBetween(notes[..last], i);
      var j :| i < j < last && notes[..last][j] == Ended(notes[i].vcpu, notes[i].irq);
      assert notes[j] == Ended(notes[i].vcpu, notes[i].irq);
    }
  }

  /** Over every run: at most 256 interrupts are queued; every accepted one is still queued or was handed
      over once, in the order of acceptance; every one handed over is in a thread's hand, was injected or
      was dropped; and two injections of an irq into a vCPU are separated by an EOI of that vCPU for it. */
  lemma InterruptDelivery(s0: State, es: seq<Event>)
    requires Initial(s0) && IsRun(s0, es)
    ensures var s := After(s0, es);
            && |s.queue| <= QUEUE_MAX_INTERRUPTS
            && s.accepted == s.handed + s.queue
            && multiset(s.handed) == InHand(s.hands) + multiset(s.injected) + multiset(s.dropped)
            && InjectedLines(s.notes) == Lines(s.injected)
            && InService(s.locals, s.notes)
            && forall i, k :: 0 <= i < k < |s.notes| && s.notes[i].Injected? && s.notes[k].Injected?
                              && s.notes[i].vcpu == s.notes[k].vcpu && s.notes[i].irq == s.notes[k].irq
                              ==> exists j :: i < j < k && s.notes[j] == Ended(s.notes[i].vcpu, s.notes[i].irq)
  {
    InitialInv(s0);
    RunKeepsInv(s0, es);
    var s := After(s0, es);
    forall i, k | 0 <= i < k < |s.notes| && s.notes[i].Injected? && s.notes[k].Injected?
                  && s.notes[i].vcpu == s.notes[k].vcpu && s.notes[i].irq == s.notes[k].irq
      ensures exists j :: i < j < k && s.notes[j] == Ended(s.notes[i].vcpu, s.notes[i].irq)
    {
      EndedBetween(s.notes[..k], i);
      var j :| i < j < k && s.notes[..k][j] == Ended(s.notes[i].vcpu, s.notes[i].irq);
      assert s.notes[j] == Ended(s.notes[i].vcpu, s.notes[i].irq);
    }
  }

  /** At the end of every run, the interrupt in a thread's hand will be dropped exactly if the target does
      not exist or was never started, if the history says that it is still serving this line, or if KVM
      refuses; otherwise it will be injected. */
  lemma DroppedIff(s0: State, es: seq<Event>, t: nat, kvmOk: bool)
    requires Initial(s0) && IsRun(s0, es) && Enabled(After(s0, es), Deliver(t, kvmOk))
    ensures var s := After(s0, es);
            var irq := s.hands[t].value;
            var line, entry := irq % 32, s.redir[irq % 32];
            var dest, s' := Destination(entry), Step(s, Deliver(t, kvmOk));
            if dest >= |s.locals| || s.locals[dest].mark.NotStarted? || Serving(s.notes, dest, line) || !kvmOk
            then s'.dropped == s.dropped + [irq] && s'.injected == s.injected && s'.notes == s.notes
            else && s'.dropped == s.dropped && s'.injected == s.injected + [irq]
                 && s'.notes == s.notes + [Injected(dest, line, entry % 0x1_0000)]
  {
    InitialInv(s0);
    RunKeepsInv(s0, es);
    hide Bit, Serving, IsRun, After, Alternates, Accounted, Or, Mask;
  }

  /** What the guest programs into an entry is what an injection uses: the vCPU from the upper half, the
      vector from the lower. */
  lemma ProgrammedEntry(s: State, k: nat, dest: nat, vector: nat, t: nat, kvmOk: bool)
    requires dest < 0x1_0000 && vector < 0x1_0000 && k < NR_MAX_IOAPIC_IRQS && Shaped(s)
    requires t < |s.hands| && s.hands[t].Some? && s.hands[t].value % 32 == k
    ensures var s1 := Step(s, Program(k, dest * 0x1_0000 + vector));
            && Enabled(s1, Deliver(t, kvmOk))
            && var s2 := Step(s1, Deliver(t, kvmOk));
               s2.notes == s.notes || s2.notes == s.notes + [Injected(dest, k, vector)]
  {
    hide Bit, Or, Mask;
    var entry := dest * 0x1_0000 + vector;
    SplitLow(vector, 0x1_0000, dest);
    assert Destination(entry) == dest && entry % 0x1_0000 == vector;
  }

  // ---------------------------------------------------------------------- waking

  /** Sending an interrupt, whether it is injected, refused or still in service, marks its target running if
      that was halted; every other mark stays. */
  lemma DeliverWakes(s: State, t: nat, kvmOk: bool, v: nat)
    requires Enabled(s, Deliver(t, kvmOk)) && v < |s.locals|
    ensures var s' := Step(s, Deliver(t, kvmOk));
            && |s'.locals| == |s.locals|
            && s'.locals[v].mark ==
               if v == Destination(s.redir[s.hands[t].value % 32]) && s.locals[v].mark == Halted then Running
               else s.locals[v].mark
  {
    hide Bit, Or, Mask;
  }

  function MarksOf(locals: seq<Local>): (marks: seq<Mark>)
    ensures |marks| == |locals|
  {
    seq(|locals|, i requires 0 <= i < |locals| => locals[i].mark)
  }

  /** The same, as steps of the thread among the vCPU threads. */
  function WakingSteps(marks: seq<Mark>, t: nat, dest: nat): seq<VcpuSleep.Event> {
    if dest < |marks| && marks[dest].Halted? then [VcpuSleep.Irq(t, dest), VcpuSleep.Wake(t)]
    else [VcpuSleep.Irq(t, dest)]
  }

  lemma WakingRun(m: VcpuSleep.State, t: nat, dest: nat)
    requires |m.threads| == |m.marks| && t < |m.threads| && m.threads[t].Active?
    ensures VcpuSleep.IsRun(m, WakingSteps(m.marks, t, dest))
    ensures VcpuSleep.After(m, WakingSteps(m.marks, t, dest)) ==
            if dest < |m.marks| && m.marks[dest].Halted? then m.(marks := m.marks[dest := Running]) else m
  {
    var irq, wake := VcpuSleep.Irq(t, dest), VcpuSleep.Wake(t);
    var m1 := VcpuSleep.Step(m, irq);
    if dest < |m.marks| && m.marks[dest].Halted? {
      var m2 := VcpuSleep.Step(m1, wake);
      assert m2.threads == m.threads;
      assert [irq, wake][1..] == [wake] && [wake][1..] == [];
      assert VcpuSleep.IsRun(m2, []) && VcpuSleep.After(m2, []) == m2;
      assert VcpuSleep.IsRun(m1, [wake]) && VcpuSleep.After(m1, [wake]) == m2;
    } else {
      assert m1 == m && [irq][1..] == [];
      assert VcpuSleep.IsRun(m, []) && VcpuSleep.After(m, []) == m;
    }
  }

  /** Delivery is what the model of the vCPU threads takes it for; and a thread that sleeps because its vCPU
      has halted can go on once an interrupt has been sent to it, even one that is then dropped. */
  lemma DeliverWakesThread(s: State, t: nat, kvmOk: bool, m: VcpuSleep.State)
    requires Enabled(s, Deliver(t, kvmOk)) && Shaped(s)
    requires m.marks == MarksOf(s.locals) && |m.threads| == |m.marks| && m.threads[t].Active?
    ensures var dest := Destination(s.redir[s.hands[t].value % 32]);
            var s', es := Step(s, Deliver(t, kvmOk)), WakingSteps(m.marks, t, dest);
            && VcpuSleep.IsRun(m, es)
            && var m' := VcpuSleep.After(m, es);
               && m'.marks == MarksOf(s'.locals)
               && (dest < |m.threads| && m.threads[dest].Asleep? && m.marks[dest].Halted? ==>
                     VcpuSleep.Enabled(m', VcpuSleep.Resume(dest)))
  {
    var dest := Destination(s.redir[s.hands[t].value % 32]);
    var s' := Step(s, Deliver(t, kvmOk));
    hide VcpuSleep.IsRun, VcpuSleep.After;
    WakingRun(m, t, dest);
    hide Step, Enabled;
    forall v | 0 <= v < |s.locals|
      ensures |s'.locals| == |s.locals|
      ensures s'.locals[v].mark == if v == dest && s.locals[v].mark == Halted then Running else s.locals[v].mark
    {
      DeliverWakes(s, t, kvmOk, v);
    }
    assert |s'.locals| == |s.locals| by {
      DeliverWakes(s, t, kvmOk, t);
    }
  }

  // -------------------------------------------------------------------- lost ones

  /** An interrupt raised, dequeued and sent by thread t. */
  function Service(t: nat, irq: Byte): seq<Event> {
    [Raise(irq, true), Take(t), Deliver(t, true)]
  }

  lemma RunOfThree(s: State, e1: Event, e2: Event, e3: Event)
    requires Enabled(s, e1) && Enabled(Step(s, e1), e2) && Enabled(Step(Step(s, e1), e2), e3)
    ensures IsRun(s, [e1, e2, e3]) && After(s, [e1, e2, e3]) == Step(Step(Step(s, e1), e2), e3)
  {
    hide Enabled, Step;
    assert [e1, e2, e3][1..] == [e2, e3] && [e2, e3][1..] == [e3] && [e3][1..] == [];
    var s1 := Step(s, e1);
    var s2 := Step(s1, e2);
    assert IsRun(s2, [e3]) && After(s2, [e3]) == Step(s2, e3);
    assert IsRun(s1, [e2, e3]) && After(s1, [e2, e3]) == After(s2, [e3]);
  }

  /** The state after that. */
  ghost function Settled(s: State, irq: Byte): State
    requires Shaped(s)
  {
    var (locals, note) := Sent(s.locals, s.redir, irq, true);
    s.(accepted := s.accepted + [irq], handed := s.handed + [irq], locals := locals,
       notes := s.notes + AsSeq(note),
       injected := s.injected + if note.Some? then [irq] else [],
       dropped := s.dropped + if note.Some? then [] else [irq])
  }

  lemma Serviced(s: State, t: nat, irq: Byte)
    requires Shaped(s) && s.queue == [] && t < |s.hands| && s.hands[t].None?
    ensures IsRun(s, Service(t, irq)) && After(s, Service(t, irq)) == Settled(s, irq)
  {
    hide Sent, IsRun, After;
    var s1 := Step(s, Raise(irq, true));
    var s2 := Step(s1, Take(t));
    var s3 := Step(s2, Deliver(t, true));
    assert s1.queue == [irq] && s2.queue == [];
    assert s3.hands == s.hands;
    RunOfThree(s, Raise(irq, true), Take(t), Deliver(t, true));
  }

  lemma {:induction false} RunConcat(s: State, a: seq<Event>, b: seq<Event>)
    requires IsRun(s, a) && IsRun(After(s, a), b)
    ensures IsRun(s, a + b) && After(s, a + b) == After(After(s, a), b)
    decreases |a|
  {
    if a == [] {
      assert a + b == b;
    } else {
      RunConcat(Step(s, a[0]), a[1..], b);
      assert (a + b)[1..] == a[1..] + b;
    }
  }

  lemma SentTwice(locals: seq<Local>, redir: seq<Word>, irq: Byte)
    requires |redir| == NR_MAX_IOAPIC_IRQS
    requires var dest := Destination(redir[irq % 32]);
             dest < |locals| && !locals[dest].mark.NotStarted? && locals[dest].isr == 0
    ensures Sent(locals, redir, irq, true).1.Some?
    ensures Sent(Sent(locals, redir, irq, true).0, redir, irq, true).1.None?
  {
    var k := irq % 32;
    BitOfZero(k);
    BitAfterSet(0, k, k);
    hide Bit, Or, Mask;
  }

  /** Any interrupt that its target can receive is lost when it is raised again before the EOI, although
      it was accepted, dequeued and not refused by KVM. */
  lemma SecondRaiseLost(s0: State, t: nat, irq: Byte)
    requires Initial(s0) && t < |s0.hands|
    requires var dest := Destination(s0.redir[irq % 32]);
             dest < |s0.locals| && !s0.locals[dest].mark.NotStarted?
    ensures IsRun(s0, Service(t, irq) + Service(t, irq))
    ensures var s := After(s0, Service(t, irq) + Service(t, irq));
            && s.accepted == [irq, irq] && s.queue == [] && s.hands == s0.hands
            && s.injected == [irq] && s.dropped == [irq] && |s.notes| == 1
  {
    hide IsRun, After, Sent, Step, Enabled, Service;
    var s1 := Settled(s0, irq);
    SentTwice(s0.locals, s0.redir, irq);
    Serviced(s0, t, irq);
    Serviced(s1, t, irq);
    RunConcat(s0, Service(t, irq), Service(t, irq));
  }
}
