/** The MMIO register machine of a virtio device (devices/utils/virtio.cpp), after section 4.2.2 of
    VIRTIO 1.1. */
module VirtioMmio {
  import opened Words
  import opened GuestMemory

  const MAX_VQ_SIZE := 32768
  const CONFIG_SPACE_START := 0x100

  /** Devices are routed the 0x200 bytes from their base address. */
  const MMIO_SPAN := 0x200

  const REG_DEVICE_FEATURES_SELECT := 0x14
  const REG_DRIVER_FEATURES := 0x20
  const REG_DRIVER_FEATURES_SELECT := 0x24
  const REG_QUEUE_SELECT := 0x30
  const REG_QUEUE_NUM := 0x38
  const REG_QUEUE_READY := 0x44
  const REG_INTR_ACK := 0x64
  const REG_QUEUE_DESC_LOW := 0x80
  const REG_QUEUE_DESC_HIGH := 0x84
  const REG_QUEUE_DRIVER_LOW := 0x90
  const REG_QUEUE_DRIVER_HIGH := 0x94
  const REG_QUEUE_DEVICE_LOW := 0xa0
  const REG_QUEUE_DEVICE_HIGH := 0xa4

  datatype VirtQueue = VirtQueue(
    numBufs: nat, ready: bool, availTail: nat,
    descLow: nat, descHigh: nat, driverLow: nat, driverHigh: nat, deviceLow: nat, deviceHigh: nat,
    descAddr: nat, availAddr: nat, usedAddr: nat)

  const EMPTY_QUEUE := VirtQueue(0, false, 0, 0, 0, 0, 0, 0, 0, 0, 0, 0)

  datatype Device = Device(
    mem: Region, configSize: nat, vqs: seq<VirtQueue>, queueSel: nat,
    deviceFeaturesSel: nat, driverFeatures: nat, driverFeaturesSel: nat, isrAck: nat)
  {
    predicate Valid() {
      mem.Valid() && queueSel < |vqs|
    }
  }

  /** Sizes of the three areas of a queue of `n` buffers. */
  function DescBytes(n: nat): nat {
    16 * n
  }

  function AvailBytes(n: nat): nat {
    4 + 2 * n
  }

  function UsedBytes(n: nat): nat {
    4 + 8 * n
  }

  /** A 64-bit address from its two registers. */
  function Address(high: nat, low: nat): nat {
    high * U32 + low
  }

  function SelectedQueue(d: Device): VirtQueue
    requires d.Valid()
  {
    d.vqs[d.queueSel]
  }

  function SetSelected(d: Device, vq: VirtQueue): (d': Device)
    requires d.Valid()
    ensures d'.Valid()
  {
    d.(vqs := d.vqs[d.queueSel := vq])
  }

  /** `ready_queue`: latches the addresses and readies the queue if a size is set and no area is out
      of bounds. */
  function Readied(mem: Region, vq: VirtQueue): VirtQueue {
    var desc := Address(vq.descHigh, vq.descLow);
    var avail := Address(vq.driverHigh, vq.driverLow);
    var used := Address(vq.deviceHigh, vq.deviceLow);
    if vq.numBufs == 0 then vq
    else if Oob(mem, desc, DescBytes(vq.numBufs)) then vq
    else if Oob(mem, avail, AvailBytes(vq.numBufs)) then vq
    else if Oob(mem, used, UsedBytes(vq.numBufs)) then vq
    else vq.(descAddr := desc, availAddr := avail, usedAddr := used, ready := true)
  }

  function MmioWritten(d: Device, offset: nat, size: nat, data: nat): (d': Device)
    requires d.Valid() && offset < MMIO_SPAN && size < U32 && data < U64
    ensures d'.Valid() && |d'.vqs| == |d.vqs| && d'.mem == d.mem && d'.configSize == d.configSize
  {
    var vq := SelectedQueue(d);
    if offset >= CONFIG_SPACE_START && Add64(offset, size) <= CONFIG_SPACE_START + d.configSize then d
    else if offset == REG_DEVICE_FEATURES_SELECT then d.(deviceFeaturesSel := if data != 0 then 1 else 0)
    else if offset == REG_DRIVER_FEATURES then
      d.(driverFeatures :=
           if d.driverFeaturesSel != 0 then data % U32 * U32 + d.driverFeatures % U32
           else d.driverFeatures / U32 * U32 + data % U32)
    else if offset == REG_DRIVER_FEATURES_SELECT then d.(driverFeaturesSel := if data != 0 then 1 else 0)
    else if offset == REG_QUEUE_SELECT then (if data < |d.vqs| then d.(queueSel := data) else d)
    else if offset == REG_QUEUE_NUM then
      (if data < MAX_VQ_SIZE && !vq.ready then SetSelected(d, vq.(numBufs := data)) else d)
    else if offset == REG_QUEUE_READY then (if data != 0 then SetSelected(d, Readied(d.mem, vq)) else d)
    else if offset == REG_INTR_ACK then d.(isrAck := data % U32)
    else if offset == REG_QUEUE_DESC_LOW then SetSelected(d, vq.(descLow := data % U32))
    else if offset == REG_QUEUE_DESC_HIGH then SetSelected(d, vq.(descHigh := data % U32))
    else if offset == REG_QUEUE_DRIVER_LOW then SetSelected(d, vq.(driverLow := data % U32))
    else if offset == REG_QUEUE_DRIVER_HIGH then SetSelected(d, vq.(driverHigh := data % U32))
    else if offset == REG_QUEUE_DEVICE_LOW then SetSelected(d, vq.(deviceLow := data % U32))
    else if offset == REG_QUEUE_DEVICE_HIGH then SetSelected(d, vq.(deviceHigh := data % U32))
    else d
  }

  // --------------------------------------------------------------- the device

  /** The registers as mutable state. Queue notifications are the device's own business. */
  class MmioVirtioDev {
    const mem: Region
    const configSize: nat
    const vqs: array<VirtQueue>
    var queueSel: nat
    var deviceFeaturesSel: nat
    var driverFeatures: nat
    var driverFeaturesSel: nat
    var isrAck: nat

    ghost function View(): Device
      reads this, vqs
    {
      Device(mem, configSize, vqs[..], queueSel, deviceFeaturesSel, driverFeatures, driverFeaturesSel, isrAck)
    }

    constructor (mem: Region, configSize: nat, numQueues: nat)
      requires mem.Valid() && numQueues > 0
      ensures View() == Start(mem, configSize, numQueues) && fresh(vqs)
    {
      this.mem, this.configSize := mem, configSize;
      vqs := new VirtQueue[numQueues](_ => EMPTY_QUEUE);
      queueSel, deviceFeaturesSel, driverFeatures, driverFeaturesSel, isrAck := 0, 0, 0, 0, 0;
      new;
      assert vqs[..] == seq(numQueues, _ => EMPTY_QUEUE);
    }

    method UpdateSelected(vq: VirtQueue)
      requires View().Valid()
      modifies vqs
      ensures View() == SetSelected(old(View()), vq)
    {
      vqs[queueSel] := vq;
      assert vqs[..] == old(vqs[..])[queueSel := vq];
    }

    method ReadyQueue() returns (ok: bool)
      requires View().Valid()
      modifies vqs
      ensures View() == SetSelected(old(View()), Readied(mem, old(vqs[queueSel])))
      ensures !ok ==> View() == old(View())
      ensures ok ==> vqs[queueSel].ready
    {
      var vq := vqs[queueSel];
      ok := false;
      if vq.numBufs != 0 {
        var desc := Address(vq.descHigh, vq.descLow);
        var avail := Address(vq.driverHigh, vq.driverLow);
        var used := Address(vq.deviceHigh, vq.deviceLow);
        if !Oob(mem, desc, DescBytes(vq.numBufs)) && !Oob(mem, avail, AvailBytes(vq.numBufs))
           && !Oob(mem, used, UsedBytes(vq.numBufs)) {
          ok := true;
          vq := vq.(descAddr := desc, availAddr := avail, usedAddr := used, ready := true);
        }
      }
      UpdateSelected(vq);
      assert !ok ==> vqs[..] == old(vqs[..]);
    }

    method MmioWrite(offset: nat, size: nat, data: nat)
      requires View().Valid() && offset < MMIO_SPAN && size < U32 && data < U64
      modifies this, vqs
      ensures View() == MmioWritten(old(View()), offset, size, data)
    {
      if offset >= CONFIG_SPACE_START && Add64(offset, size) <= CONFIG_SPACE_START + configSize {
        return;
      }
      if offset == REG_DEVICE_FEATURES_SELECT {
        deviceFeaturesSel := if data != 0 then 1 else 0;
      } else if offset == REG_DRIVER_FEATURES {
        if driverFeaturesSel != 0 {
          driverFeatures := data % U32 * U32 + driverFeatures % U32;
        } else {
          driverFeatures := driverFeatures / U32 * U32 + data % U32;
        }
      } else if offset == REG_DRIVER_FEATURES_SELECT {
        driverFeaturesSel := if data != 0 then 1 else 0;
      } else if offset == REG_QUEUE_SELECT {
        if data < vqs.Length {
          queueSel := data;
        }
      } else if offset == REG_QUEUE_NUM {
        if data < MAX_VQ_SIZE {
          if !vqs[queueSel].ready {
            UpdateSelected(vqs[queueSel].(numBufs := data));
          }
        }
      } else if offset == REG_QUEUE_READY {
        if data != 0 {
          var ok := ReadyQueue();
        }
      } else if offset == REG_INTR_ACK {
        isrAck := data % U32;
      } else if offset == REG_QUEUE_DESC_LOW {
        UpdateSelected(vqs[queueSel].(descLow := data % U32));
      } else if offset == REG_QUEUE_DESC_HIGH {
        UpdateSelected(vqs[queueSel].(descHigh := data % U32));
      } else if offset == REG_QUEUE_DRIVER_LOW {
        UpdateSelected(vqs[queueSel].(driverLow := data % U32));
      } else if offset == REG_QUEUE_DRIVER_HIGH {
        UpdateSelected(vqs[queueSel].(driverHigh := data % U32));
      } else if offset == REG_QUEUE_DEVICE_LOW {
        UpdateSelected(vqs[queueSel].(deviceLow := data % U32));
      } else if offset == REG_QUEUE_DEVICE_HIGH {
        UpdateSelected(vqs[queueSel].(deviceHigh := data % U32));
      }
    }
  }

  // --------------------------------------------------------------------- runs

  /** What happens to a device: a routed write, or its own consumption of an available buffer. */
  datatype Event = Write(offset: nat, size: nat, data: nat) | Consume(q: nat)

  predicate Possible(d: Device, e: Event) {
    match e
    case Write(offset, size, data) => offset < MMIO_SPAN && size < U32 && data < U64
    case Consume(q) => q < |d.vqs| && d.vqs[q].ready
  }

  function Step(d: Device, e: Event): (d': Device)
    requires d.Valid() && Possible(d, e)
    ensures d'.Valid() && |d'.vqs| == |d.vqs| && d'.mem == d.mem
  {
    match e
    case Write(offset, size, data) => MmioWritten(d, offset, size, data)
    case Consume(q) => d.(vqs := d.vqs[q := d.vqs[q].(availTail := (d.vqs[q].availTail + 1) % U16)])
  }

  predicate IsRun(d: Device, es: seq<Event>)
    requires d.Valid()
    decreases |es|
  {
    es == [] || (Possible(d, es[0]) && IsRun(Step(d, es[0]), es[1..]))
  }

  function After(d: Device, es: seq<Event>): (d': Device)
    requires d.Valid() && IsRun(d, es)
    ensures d'.Valid() && |d'.vqs| == |d.vqs| && d'.mem == d.mem
    decreases |es|
  {
    if es == [] then d else After(Step(d, es[0]), es[1..])
  }

  function Start(mem: Region, configSize: nat, numQueues: nat): (d: Device)
    requires mem.Valid() && numQueues > 0
    ensures d.Valid()
  {
    Device(mem, configSize, seq(numQueues, _ => EMPTY_QUEUE), 0, 0, 0, 0, 0)
  }

  // ---------------------------------------------------------------- invariant

  predicate QueueSound(mem: Region, vq: VirtQueue) {
    && vq.numBufs < MAX_VQ_SIZE
    && vq.descLow < U32 && vq.descHigh < U32 && vq.driverLow < U32 && vq.driverHigh < U32
    && vq.deviceLow < U32 && vq.deviceHigh < U32
    && (vq.ready ==>
          && vq.numBufs > 0
          && Inside(mem, vq.descAddr, DescBytes(vq.numBufs))
          && Inside(mem, vq.availAddr, AvailBytes(vq.numBufs))
          && Inside(mem, vq.usedAddr, UsedBytes(vq.numBufs)))
  }

  predicate Sound(d: Device) {
    d.Valid() && forall q :: 0 <= q < |d.vqs| ==> QueueSound(d.mem, d.vqs[q])
  }

  lemma ReadiedSound(mem: Region, vq: VirtQueue)
    requires mem.Valid() && QueueSound(mem, vq)
    ensures QueueSound(mem, Readied(mem, vq)) && (vq.ready ==> Readied(mem, vq).ready)
    ensures Readied(mem, vq).numBufs == vq.numBufs
  {
    OobIsExact(mem, Address(vq.descHigh, vq.descLow), DescBytes(vq.numBufs));
    OobIsExact(mem, Address(vq.driverHigh, vq.driverLow), AvailBytes(vq.numBufs));
    OobIsExact(mem, Address(vq.deviceHigh, vq.deviceLow), UsedBytes(vq.numBufs));
  }

  /** Once ready, a queue stays ready and keeps its size. */
  predicate Frozen(before: VirtQueue, after: VirtQueue) {
    before.ready ==> after.ready && after.numBufs == before.numBufs
  }

  predicate SameAreas(before: VirtQueue, after: VirtQueue) {
    after.descAddr == before.descAddr && after.availAddr == before.availAddr && after.usedAddr == before.usedAddr
  }

  /** No step unsettles a ready queue; only another write to the ready register of the selected queue can
      move its areas. */
  lemma StepSound(d: Device, e: Event)
    requires Sound(d) && Possible(d, e)
    ensures Sound(Step(d, e))
    ensures forall q :: 0 <= q < |d.vqs| ==>
              && Frozen(d.vqs[q], Step(d, e).vqs[q])
              && (SameAreas(d.vqs[q], Step(d, e).vqs[q]) ||
                  (e.Write? && e.offset == REG_QUEUE_READY && q == d.queueSel))
  {
    ReadiedSound(d.mem, SelectedQueue(d));
  }

  /** It does so if the address registers were rewritten meanwhile. */
  lemma ReadyAgainMoves(d: Device, desc: nat)
    requires Sound(d) && SelectedQueue(d).ready
    requires desc < U32 && Inside(d.mem, desc, DescBytes(SelectedQueue(d).numBufs))
    requires var vq := SelectedQueue(d);
             && vq.descHigh == 0 && vq.availAddr == Address(vq.driverHigh, vq.driverLow)
             && vq.usedAddr == Address(vq.deviceHigh, vq.deviceLow)
    ensures var d1 := MmioWritten(d, REG_QUEUE_DESC_LOW, 4, desc);
            SelectedQueue(MmioWritten(d1, REG_QUEUE_READY, 4, 1)).descAddr == desc
  {
    var vq := SelectedQueue(d);
    OobIsExact(d.mem, desc, DescBytes(vq.numBufs));
    OobIsExact(d.mem, vq.availAddr, AvailBytes(vq.numBufs));
    OobIsExact(d.mem, vq.usedAddr, UsedBytes(vq.numBufs));
    hide Oob, Inside;
  }

  /** The ready-queue invariant over every run of register writes, for every queue: the selector stays
      in range, and a ready queue has a frozen size below 32768 with its three areas wholly in system
      memory, in unbounded arithmetic. */
  lemma {:induction false} RunSound(d: Device, es: seq<Event>)
    requires Sound(d) && IsRun(d, es)
    ensures Sound(After(d, es))
    ensures forall q :: 0 <= q < |d.vqs| ==> Frozen(d.vqs[q], After(d, es).vqs[q])
    decreases |es|
  {
    if es != [] {
      var d1 := Step(d, es[0]);
      StepSound(d, es[0]);
      RunSound(d1, es[1..]);
      forall q | 0 <= q < |d.vqs|
        ensures Frozen(d.vqs[q], After(d, es).vqs[q])
      {
        assert Frozen(d.vqs[q], d1.vqs[q]);
        assert Frozen(d1.vqs[q], After(d1, es[1..]).vqs[q]);
      }
    }
  }

  /** The accesses through a ready queue. Both index words (so the out-of-range exception is never thrown),
      the ring slots and the descriptors of the table are in bounds. The descriptor read for an id equal to
      the size, and the element `put_buf` writes behind the used area, are in bounds exactly if memory goes
      on that far: sixteen bytes behind the table, eight behind the used area. */
  ghost predicate AccessBounds(mem: Region, vq: VirtQueue, slot: nat) {
    && !Oob(mem, vq.availAddr + 2, 2) && !Oob(mem, vq.usedAddr + 2, 2)
    && (slot < vq.numBufs ==> !Oob(mem, vq.availAddr + 4 + 2 * slot, 2))
    && (slot < vq.numBufs ==> !Oob(mem, vq.descAddr + 16 * slot, 16))
    && (!Oob(mem, vq.descAddr + 16 * vq.numBufs, 16) <==> Inside(mem, vq.descAddr, DescBytes(vq.numBufs) + 16))
    && (!Oob(mem, vq.usedAddr + 4 + 8 * vq.numBufs, 8) <==> Inside(mem, vq.usedAddr, UsedBytes(vq.numBufs) + 8))
  }

  lemma SoundAccesses(mem: Region, vq: VirtQueue, slot: nat)
    requires mem.Valid() && QueueSound(mem, vq) && vq.ready
    ensures AccessBounds(mem, vq, slot)
  {
    OobIsExact(mem, vq.availAddr + 2, 2);
    OobIsExact(mem, vq.usedAddr + 2, 2);
    OobIsExact(mem, vq.descAddr + 16 * vq.numBufs, 16);
    OobIsExact(mem, vq.usedAddr + 4 + 8 * vq.numBufs, 8);
    if slot < vq.numBufs {
      OobIsExact(mem, vq.availAddr + 4 + 2 * slot, 2);
      OobIsExact(mem, vq.descAddr + 16 * slot, 16);
    }
    hide Oob;
  }

  /** They are so in every reachable state, for every ready queue. */
  lemma ReadyAccessesInBounds(mem: Region, configSize: nat, numQueues: nat, es: seq<Event>, q: nat, slot: nat)
    requires mem.Valid() && numQueues > 0 && IsRun(Start(mem, configSize, numQueues), es)
    requires q < numQueues && After(Start(mem, configSize, numQueues), es).vqs[q].ready
    ensures AccessBounds(mem, After(Start(mem, configSize, numQueues), es).vqs[q], slot)
  {
    hide AccessBounds, IsRun, After, Step, Inside;
    var d := Start(mem, configSize, numQueues);
    RunSound(d, es);
    SoundAccesses(mem, After(d, es).vqs[q], slot);
  }

  // ------------------------------------------------------- the driver's handshake

  /** The register writes of setup_virtq followed by those of commit_and_ready_vq. */
  function DriverCommits(d: Device, q: nat, n: nat, desc: nat, avail: nat, used: nat): Device
    requires d.Valid() && q < U32 && n < U32 && desc < U32 && avail < U32 && used < U32
  {
    var d := MmioWritten(d, REG_QUEUE_SELECT, 4, q);
    var d := MmioWritten(d, REG_QUEUE_NUM, 4, n);
    var d := MmioWritten(d, REG_QUEUE_SELECT, 4, q);
    var d := MmioWritten(d, REG_QUEUE_DESC_LOW, 4, desc);
    var d := MmioWritten(d, REG_QUEUE_DRIVER_LOW, 4, avail);
    var d := MmioWritten(d, REG_QUEUE_DEVICE_LOW, 4, used);
    MmioWritten(d, REG_QUEUE_READY, 4, 1)
  }

  function Registered(n: nat, desc: nat, avail: nat, used: nat): VirtQueue {
    EMPTY_QUEUE.(numBufs := if n < MAX_VQ_SIZE then n else 0, descLow := desc, driverLow := avail, deviceLow := used)
  }

  lemma CommittedQueue(d: Device, q: nat, n: nat, desc: nat, avail: nat, used: nat)
    requires d.Valid() && q < |d.vqs| && d.vqs[q] == EMPTY_QUEUE
    requires q < U32 && n < U32 && desc < U32 && avail < U32 && used < U32
    ensures DriverCommits(d, q, n, desc, avail, used) ==
            d.(queueSel := q, vqs := d.vqs[q := Readied(d.mem, Registered(n, desc, avail, used))])
  {
    hide Readied;
  }

  /** On a queue that was never set up, the driver's writes end with the queue ready exactly when its
      size is allowed and its three areas lie in system memory; the device then uses the driver's
      addresses and size. No other queue changes. */
  lemma DriverReadiesQueue(d: Device, q: nat, n: nat, desc: nat, avail: nat, used: nat)
    requires d.Valid() && q < |d.vqs| && d.vqs[q] == EMPTY_QUEUE
    requires q < U32 && n < U32 && desc < U32 && avail < U32 && used < U32
    ensures var d' := DriverCommits(d, q, n, desc, avail, used);
            var vq := d'.vqs[q];
            && (vq.ready <==>
                  0 < n < MAX_VQ_SIZE && Inside(d.mem, desc, DescBytes(n))
                  && Inside(d.mem, avail, AvailBytes(n)) && Inside(d.mem, used, UsedBytes(n)))
            && (vq.ready ==> vq.numBufs == n && vq.descAddr == desc && vq.availAddr == avail && vq.usedAddr == used)
            && (forall i :: 0 <= i < |d.vqs| && i != q ==> d'.vqs[i] == d.vqs[i])
  {
    if n < MAX_VQ_SIZE {
      OobIsExact(d.mem, desc, DescBytes(n));
      OobIsExact(d.mem, avail, AvailBytes(n));
      OobIsExact(d.mem, used, UsedBytes(n));
    }
    hide Oob, Inside, DriverCommits;
    CommittedQueue(d, q, n, desc, avail, used);
  }

  /** The driver can ready a queue through which nothing can be given back: twenty buffers, with the used
      area at the very end of system memory. */
  lemma UsedAreaAtEnd(d: Device, q: nat, desc: nat, avail: nat)
    requires d.Valid() && d.mem == SYSTEM_MEMORY && q < |d.vqs| && d.vqs[q] == EMPTY_QUEUE && q < U32
    requires Inside(SYSTEM_MEMORY, desc, DescBytes(20)) && Inside(SYSTEM_MEMORY, avail, AvailBytes(20))
    ensures var used := SYSTEM_MEMORY.end - UsedBytes(20);
            var vq := DriverCommits(d, q, 20, desc, avail, used).vqs[q];
            vq.ready && vq.usedAddr == used && Oob(SYSTEM_MEMORY, vq.usedAddr + 4 + 8 * vq.numBufs, 8)
  {
    hide DriverCommits;
    DriverReadiesQueue(d, q, 20, desc, avail, SYSTEM_MEMORY.end - UsedBytes(20));
  }
}
