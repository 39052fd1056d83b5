/** The virtio registers as a memory: which write each one remembers (devices/utils/virtio.cpp). */
module VirtioRegisters {
  import opened Words
  import opened GuestMemory
  import opened VirtioMmio

  // ------------------------------------------------------------------ one write

  function Flag(data: nat): nat {
    if data != 0 then 1 else 0
  }

  function Low(x: nat): nat {
    x % U32
  }

  function High(x: nat): nat {
    x / U32
  }

  /** What a write leaves in each register of the device: itself, or what was there. */
  lemma DeviceAfterWrite(d: Device, offset: nat, size: nat, data: nat)
    requires d.Valid() && offset < MMIO_SPAN && size < U32 && data < U64 && d.driverFeatures < U64
    ensures var d' := MmioWritten(d, offset, size, data);
            var features := offset == REG_DRIVER_FEATURES;
            && d'.deviceFeaturesSel ==
               (if offset == REG_DEVICE_FEATURES_SELECT then Flag(data) else d.deviceFeaturesSel)
            && d'.driverFeaturesSel ==
               (if offset == REG_DRIVER_FEATURES_SELECT then Flag(data) else d.driverFeaturesSel)
            && d'.queueSel == (if offset == REG_QUEUE_SELECT && data < |d.vqs| then data else d.queueSel)
            && d'.isrAck == (if offset == REG_INTR_ACK then Low(data) else d.isrAck)
            && Low(d'.driverFeatures) ==
               (if features && d.driverFeaturesSel == 0 then Low(data) else Low(d.driverFeatures))
            && High(d'.driverFeatures) ==
               (if features && d.driverFeaturesSel != 0 then Low(data) else High(d.driverFeatures))
            && d'.driverFeatures < U64
            && forall q :: 0 <= q < |d.vqs| && q != d.queueSel ==> d'.vqs[q] == d.vqs[q]
  {
    hide Readied, Add64;
    SplitLow(Low(data), U32, High(d.driverFeatures));
    SplitLow(Low(d.driverFeatures), U32, Low(data));
  }

  /** The address registers of a queue. */
  predicate IsAddress(offset: nat) {
    offset in {REG_QUEUE_DESC_LOW, REG_QUEUE_DESC_HIGH, REG_QUEUE_DRIVER_LOW, REG_QUEUE_DRIVER_HIGH,
               REG_QUEUE_DEVICE_LOW, REG_QUEUE_DEVICE_HIGH}
  }

  function AddressRegister(vq: VirtQueue, offset: nat): nat
    requires IsAddress(offset)
  {
    if offset == REG_QUEUE_DESC_LOW then vq.descLow
    else if offset == REG_QUEUE_DESC_HIGH then vq.descHigh
    else if offset == REG_QUEUE_DRIVER_LOW then vq.driverLow
    else if offset == REG_QUEUE_DRIVER_HIGH then vq.driverHigh
    else if offset == REG_QUEUE_DEVICE_LOW then vq.deviceLow
    else vq.deviceHigh
  }

  /** The size of a queue is allowed, and the areas that its registers name lie in memory. */
  predicate Acceptable(mem: Region, vq: VirtQueue) {
    && vq.numBufs > 0
    && Inside(mem, Address(vq.descHigh, vq.descLow), DescBytes(vq.numBufs))
    && Inside(mem, Address(vq.driverHigh, vq.driverLow), AvailBytes(vq.numBufs))
    && Inside(mem, Address(vq.deviceHigh, vq.deviceLow), UsedBytes(vq.numBufs))
  }

  /** What a write leaves in the selected queue. A queue is readied, with the areas its registers name,
      exactly by a non-zero write to its ready register while they are acceptable. */
  lemma QueueAfterWrite(d: Device, offset: nat, size: nat, data: nat, register: nat)
    requires Sound(d) && offset < MMIO_SPAN && size < U32 && data < U64 && IsAddress(register)
    ensures var vq, vq' := SelectedQueue(d), MmioWritten(d, offset, size, data).vqs[d.queueSel];
            var readied := offset == REG_QUEUE_READY && data != 0 && Acceptable(d.mem, vq);
            && AddressRegister(vq', register) ==
               (if offset == register then Low(data) else AddressRegister(vq, register))
            && vq'.numBufs ==
               (if offset == REG_QUEUE_NUM && data < MAX_VQ_SIZE && !vq.ready then data else vq.numBufs)
            && vq'.availTail == vq.availTail && vq'.ready == (vq.ready || readied)
            && (if readied
                then && vq'.descAddr == Address(vq.descHigh, vq.descLow)
                     && vq'.availAddr == Address(vq.driverHigh, vq.driverLow)
                     && vq'.usedAddr == Address(vq.deviceHigh, vq.deviceLow)
                else SameAreas(vq, vq'))
  {
    var vq := SelectedQueue(d);
    assert QueueSound(d.mem, vq);
    OobIsExact(d.mem, Address(vq.descHigh, vq.descLow), DescBytes(vq.numBufs));
    OobIsExact(d.mem, Address(vq.driverHigh, vq.driverLow), AvailBytes(vq.numBufs));
    OobIsExact(d.mem, Address(vq.deviceHigh, vq.deviceLow), UsedBytes(vq.numBufs));
    hide Oob, Inside, Add64, QueueSound;
  }

  // ---------------------------------------------------------------- the handshake

  /** A value for one of the two feature words. */
  function FeatureWritten(d: Device, half: nat, data: nat): (d': Device)
    requires d.Valid() && half < U64 && data < U64
    ensures d'.Valid()
  {
    MmioWritten(MmioWritten(d, REG_DRIVER_FEATURES_SELECT, 4, half), REG_DRIVER_FEATURES, 4, data)
  }

  /** Whatever was there before, the device has the features that the driver wrote, in either order of the
      two words. */
  lemma FeaturesHandshake(d: Device, hi: nat, lo: nat)
    requires d.Valid() && d.driverFeatures < U64 && hi < U32 && lo < U32
    ensures FeatureWritten(FeatureWritten(d, 1, hi), 0, lo).driverFeatures == hi * U32 + lo
    ensures FeatureWritten(FeatureWritten(d, 0, lo), 1, hi).driverFeatures == hi * U32 + lo
  {
    hide MmioWritten;
    FeatureHalves(d, 1, hi);
    FeatureHalves(FeatureWritten(d, 1, hi), 0, lo);
    FeatureHalves(d, 0, lo);
    FeatureHalves(FeatureWritten(d, 0, lo), 1, hi);
    LowHigh(FeatureWritten(FeatureWritten(d, 1, hi), 0, lo).driverFeatures, U32);
    LowHigh(FeatureWritten(FeatureWritten(d, 0, lo), 1, hi).driverFeatures, U32);
  }

  lemma FeatureHalves(d: Device, half: nat, data: nat)
    requires d.Valid() && d.driverFeatures < U64 && half < 2 && data < U32
    ensures var d' := FeatureWritten(d, half, data);
            && d'.driverFeatures < U64
            && Low(d'.driverFeatures) == (if half == 0 then data else Low(d.driverFeatures))
            && High(d'.driverFeatures) == (if half == 1 then data else High(d.driverFeatures))
  {
    hide MmioWritten;
    DeviceAfterWrite(d, REG_DRIVER_FEATURES_SELECT, 4, half);
    DeviceAfterWrite(MmioWritten(d, REG_DRIVER_FEATURES_SELECT, 4, half), REG_DRIVER_FEATURES, 4, data);
  }

  // ------------------------------------------------------------------- whole runs

  predicate Writes(e: Event, offset: nat) {
    e.Write? && e.offset == offset
  }

  /** The last flag written to a selector of features. */
  function LastFlag(es: seq<Event>, offset: nat): (flag: nat)
    ensures flag < 2
    decreases |es|
  {
    if es == [] then 0
    else
      var e := es[|es| - 1];
      if Writes(e, offset) then Flag(e.data) else LastFlag(es[..|es| - 1], offset)
  }

  function LastAck(es: seq<Event>): nat
    decreases |es|
  {
    if es == [] then 0
    else
      var e := es[|es| - 1];
      if Writes(e, REG_INTR_ACK) then Low(e.data) else LastAck(es[..|es| - 1])
  }

  /** The queue selected last, of `n`. */
  function LastSelected(es: seq<Event>, n: nat): nat
    decreases |es|
  {
    if es == [] then 0
    else
      var e := es[|es| - 1];
      if Writes(e, REG_QUEUE_SELECT) && e.data < n then e.data else LastSelected(es[..|es| - 1], n)
  }

  /** The last feature word written while its half was selected. */
  function LastFeature(es: seq<Event>, half: nat): nat
    decreases |es|
  {
    if es == [] then 0
    else
      var e, before := es[|es| - 1], es[..|es| - 1];
      if Writes(e, REG_DRIVER_FEATURES) && LastFlag(before, REG_DRIVER_FEATURES_SELECT) == half then Low(e.data)
      else LastFeature(before, half)
  }

  /** The last value written to an address register while queue q, of n, was selected. */
  function LastAddress(es: seq<Event>, n: nat, q: nat, offset: nat): nat
    decreases |es|
  {
    if es == [] then 0
    else
      var e, before := es[|es| - 1], es[..|es| - 1];
      if Writes(e, offset) && LastSelected(before, n) == q then Low(e.data)
      else LastAddress(before, n, q, offset)
  }

  /** How many buffers of queue q the device has consumed. */
  function Consumptions(es: seq<Event>, q: nat): nat
    decreases |es|
  {
    if es == [] then 0
    else Consumptions(es[..|es| - 1], q) + if es[|es| - 1] == Consume(q) then 1 else 0
  }

  lemma {:induction false} RunSnoc(d: Device, es: seq<Event>)
    requires d.Valid() && es != [] && IsRun(d, es)
    ensures var before := es[..|es| - 1];
            && IsRun(d, before) && Possible(After(d, before), es[|es| - 1])
            && After(d, es) == Step(After(d, before), es[|es| - 1])
    decreases |es|
  {
    hide Step, Possible;
    if |es| == 1 {
      assert es[1..] == [] && es[..0] == [];
    } else {
      RunSnoc(Step(d, es[0]), es[1..]);
      assert es[1..][..|es| - 2] == es[..|es| - 1][1..];
      assert es[1..][|es| - 2] == es[|es| - 1];
    }
  }

  /** Every register remembers the last write that was meant for it, over every run of writes to the device
      and consumptions by it: the selectors and the acknowledgement the last write to themselves, each
      feature word the last one made while its half was selected, each address register of each queue the
      last one made while that queue was selected. The tail of a queue counts its consumptions. */
  ghost predicate Remembers(d: Device, n: nat, es: seq<Event>) {
    && |d.vqs| == n && d.driverFeatures < U64
    && d.deviceFeaturesSel == LastFlag(es, REG_DEVICE_FEATURES_SELECT)
    && d.driverFeaturesSel == LastFlag(es, REG_DRIVER_FEATURES_SELECT)
    && d.queueSel == LastSelected(es, n)
    && d.isrAck == LastAck(es)
    && Low(d.driverFeatures) == LastFeature(es, 0) && High(d.driverFeatures) == LastFeature(es, 1)
    && (forall q :: 0 <= q < n ==> d.vqs[q].availTail == Consumptions(es, q) % U16)
    && forall q, r :: 0 <= q < n && IsAddress(r) ==> AddressRegister(d.vqs[q], r) == LastAddress(es, n, q, r)
  }

  lemma WriteRemembered(d: Device, n: nat, before: seq<Event>, es: seq<Event>, e: Event)
    requires Sound(d) && Remembers(d, n, before) && Possible(d, e) && e.Write? && es == before + [e]
    ensures Remembers(Step(d, e), n, es)
  {
    assert es[..|es| - 1] == before && es[|es| - 1] == e;
    var d' := Step(d, e);
    hide MmioWritten, Readied, Inside, Sound;
    DeviceAfterWrite(d, e.offset, e.size, e.data);
    forall q, r | 0 <= q < n && IsAddress(r)
      ensures AddressRegister(d'.vqs[q], r) == LastAddress(es, n, q, r)
    {
      QueueAfterWrite(d, e.offset, e.size, e.data, r);
    }
    QueueAfterWrite(d, e.offset, e.size, e.data, REG_QUEUE_DESC_LOW);
  }

  lemma ConsumptionUnnoticed(d: Device, n: nat, before: seq<Event>, es: seq<Event>, e: Event)
    requires d.Valid() && Remembers(d, n, before) && Possible(d, e) && e.Consume? && es == before + [e]
    ensures Remembers(Step(d, e), n, es)
  {
    assert es[..|es| - 1] == before && es[|es| - 1] == e;
    var d' := Step(d, e);
    forall q, r | 0 <= q < n && IsAddress(r)
      ensures AddressRegister(d'.vqs[q], r) == LastAddress(es, n, q, r)
    {
      assert AddressRegister(d'.vqs[q], r) == AddressRegister(d.vqs[q], r);
    }
  }

  lemma {:induction false} RegistersRemember(mem: Region, configSize: nat, n: nat, es: seq<Event>)
    requires mem.Valid() && n > 0 && IsRun(Start(mem, configSize, n), es)
    ensures Remembers(After(Start(mem, configSize, n), es), n, es)
    decreases |es|
  {
    var d := Start(mem, configSize, n);
    if es != [] {
      hide IsRun, After, Remembers, Step, Possible;
      var before, e := es[..|es| - 1], es[|es| - 1];
      RunSnoc(d, es);
      RegistersRemember(mem, configSize, n, before);
      RunSound(d, before);
      assert es == before + [e];
      if e.Write? {
        WriteRemembered(After(d, before), n, before, es, e);
      } else {
        ConsumptionUnnoticed(After(d, before), n, before, es, e);
      }
    }
  }
}
