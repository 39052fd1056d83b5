/** The virtual processors as the monitor stores them, and the operations that change them in place. */
module Vcpus {
  import opened Words

  /** vcpu->state. */
  datatype Mark = NotStarted | Running | Halted

  class Vcpu {
    var mark: Mark
    var eip: Word
    var dirty: bool
    var isr: Word          // the local APIC's in-service register
    var window: bool       // request_interrupt_window

    constructor (bsp: bool)
      ensures mark == (if bsp then Running else NotStarted)
      ensures eip == 0 && dirty && isr == 0 && !window
    {
      mark := if bsp then Running else NotStarted;
      eip, dirty, isr, window := 0, true, 0, false;
    }
  }

  predicate Distinct(vcpus: seq<Vcpu>) {
    forall i, j :: 0 <= i < j < |vcpus| ==> vcpus[i] != vcpus[j]
  }

  function Marks(vcpus: seq<Vcpu>): (r: seq<Mark>)
    reads vcpus
    ensures |r| == |vcpus|
  {
    seq(|vcpus|, i requires 0 <= i < |vcpus| reads vcpus => vcpus[i].mark)
  }

  /** The vCPU that a start-up request wakes: there are four slots, and a running vCPU is left alone. */
  function SipiTarget(marks: seq<Mark>, vector: Word): Option<nat> {
    var target := vector % 4;
    if target < |marks| && !marks[target].Running? then Some(target) else None
  }

  /** Afterwards the addressed vCPU runs, if it exists; one that was not running starts at the vector's
      address. A vCPU that was running, and every other, is left alone. */
  method DoSipi(vcpus: seq<Vcpu>, vector: Word)
    requires Distinct(vcpus)
    modifies vcpus
    ensures forall i :: 0 <= i < |vcpus| && i == vector % 4 ==>
              && vcpus[i].mark == Running && vcpus[i].isr == old(vcpus[i].isr)
              && (old(vcpus[i].mark) == Running ==> unchanged(vcpus[i]))
              && (old(vcpus[i].mark) != Running ==> vcpus[i].eip == vector / 4 * 4 && vcpus[i].dirty)
    ensures forall i :: 0 <= i < |vcpus| && i != vector % 4 ==> unchanged(vcpus[i])
  {
    var target := vector % 4;
    if target >= |vcpus| || vcpus[target].mark.Running? {
      return;
    }
    vcpus[target].mark := Running;
    vcpus[target].eip := vector - vector % 4;
    vcpus[target].dirty := true;
  }

  /** The loop of waitForSipi, when no state changes under it. */
  method ScanStates(vcpus: seq<Vcpu>) returns (allHalted: bool)
    ensures allHalted <==> forall j :: 0 <= j < |vcpus| ==> !vcpus[j].mark.Running?
  {
    allHalted := true;
    for i := 0 to |vcpus|
      invariant allHalted <==> forall j :: 0 <= j < i ==> !vcpus[j].mark.Running?
    {
      if vcpus[i].mark.Running? {
        allHalted := false;
      }
    }
  }

  /** The loop of main that creates the vCPUs. Only the first, the bootstrap processor, is running
      afterwards, so the first thread to scan does not shut down, and no interrupt is in service. */
  method StartVcpus(n: nat) returns (vcpus: seq<Vcpu>)
    ensures |vcpus| == n && Distinct(vcpus) && fresh(vcpus)
    ensures forall i :: 0 <= i < n ==> vcpus[i].mark == if i == 0 then Running else NotStarted
    ensures forall i :: 0 <= i < n ==> vcpus[i].isr == 0 && vcpus[i].dirty && !vcpus[i].window
  {
    vcpus := [];
    for i := 0 to n
      invariant |vcpus| == i && Distinct(vcpus) && fresh(vcpus)
      invariant forall k :: 0 <= k < i ==> vcpus[k].mark == if k == 0 then Running else NotStarted
      invariant forall k :: 0 <= k < i ==> vcpus[k].isr == 0 && vcpus[k].dirty && !vcpus[k].window
    {
      var v := new Vcpu(i == 0);
      vcpus := vcpus + [v];
    }
  }
}
