/** The available ring of a virtio queue, driver and device together (boot/kernel/virtio_drv.c and
    devices/utils/virtio.cpp), after section 2.6.6 of VIRTIO 1.1. */
module VirtioRing {
  import opened Words
  import opened GuestMemory

  /** A posted buffer: guest address and length. */
  datatype Buf = Buf(addr: nat, len: nat)

  /** Where the device looks: the descriptor table and the used area in guest memory, and what the bytes
      behind the table read as when taken for one more descriptor. */
  datatype Layout = Layout(mem: Region, descAddr: nat, usedAddr: nat, beyond: Buf)

  /** Guest memory shared by both sides (`descs`, `ring`, `availIdx`, `usedIdx`) and the device's own
      tail counter. All three counters are 16-bit. */
  datatype Ring = Ring(n: nat, descs: seq<Buf>, ring: seq<nat>, availIdx: nat, tail: nat, usedIdx: nat) {
    predicate Valid() {
      && 0 < n < 32768 && |descs| == n && |ring| == n
      && availIdx < U16 && tail < U16 && usedIdx < U16
    }
  }

  /** `add_buf`: descriptor and ring slot are chosen by the counter. */
  function AddBuf(r: Ring, buf: Buf): (r': Ring)
    requires r.Valid()
    ensures r'.Valid()
  {
    var slot := Mod(r.availIdx, r.n);
    r.(descs := r.descs[slot := buf], ring := r.ring[slot := slot], availIdx := Inc16(r.availIdx))
  }

  /** The descriptor with the given id. An id equal to the queue size passes the source's check and is
      read from behind the table, if that is still in bounds. */
  function Descriptor(l: Layout, r: Ring, id: nat): Option<Buf>
    requires r.Valid()
  {
    if id < r.n then Some(r.descs[id])
    else if id == r.n && !Oob(l.mem, l.descAddr + 16 * r.n, 16) then Some(l.beyond)
    else None
  }

  /** The buffer `get_buf` would return: NULL if the ring is empty, there is no such descriptor, or the
      buffer is out of bounds. */
  function NextBuf(l: Layout, r: Ring): Option<Buf>
    requires r.Valid()
  {
    if r.availIdx == r.tail then None
    else
      var desc := Descriptor(l, r, r.ring[Mod(r.tail, r.n)]);
      if desc.None? || Oob(l.mem, desc.value.addr, desc.value.len) then None else desc
  }

  function GetBuf(l: Layout, r: Ring): (r': Ring)
    requires r.Valid()
    ensures r'.Valid()
  {
    if NextBuf(l, r).Some? then r.(tail := Inc16(r.tail)) else r
  }

  /** `used_full`: everything taken has been given back. */
  predicate UsedFull(r: Ring) {
    r.usedIdx == r.tail
  }

  /** `put_buf` writes its element behind the used area, whatever the counter is; this is whether that
      write is in bounds. */
  predicate ElementFits(l: Layout, n: nat) {
    !Oob(l.mem, l.usedAddr + 4 + 8 * n, 8)
  }

  predicate CanPut(l: Layout, r: Ring) {
    !UsedFull(r) && ElementFits(l, r.n)
  }

  function PutBuf(l: Layout, r: Ring): (r': Ring)
    requires r.Valid()
    ensures r'.Valid()
  {
    if CanPut(l, r) then r.(usedIdx := Inc16(r.usedIdx)) else r
  }

  // ------------------------------------------------------- the two parties

  class Virtq {
    const n: nat
    const descs: array<Buf>
    const ring: array<nat>
    var availIdx: nat
    var tail: nat
    var usedIdx: nat

    ghost function View(): Ring
      reads this, descs, ring
    {
      Ring(n, descs[..], ring[..], availIdx, tail, usedIdx)
    }

    /** Fresh areas; `stale` and `staleUsed` are what the memory of the two indices held before. */
    constructor (n: nat, stale: nat, staleUsed: nat)
      requires 0 < n < 32768 && stale < U16 && staleUsed < U16
      ensures fresh(descs) && fresh(ring) && View() == Blank(n).(availIdx := stale, usedIdx := staleUsed)
    {
      this.n := n;
      descs := new Buf[n](_ => Buf(0, 0));
      ring := new nat[n](_ => 0);
      availIdx, tail, usedIdx := stale, 0, staleUsed;
      new;
      assert descs[..] == seq(n, _ => Buf(0, 0)) && ring[..] == seq(n, _ => 0);
    }

    /** `setup_virtq`, with the addresses that its buffer allocations return: fails if one of them is NULL.
        Otherwise one buffer per descriptor has been posted, in order, exactly if both indices began at
        zero, which the driver does not see to. */
    method Setup(addrs: seq<nat>, bufSize: nat) returns (ok: bool)
      requires View().Valid() && |addrs| == n && View() == Blank(n).(availIdx := availIdx, usedIdx := usedIdx)
      modifies this`availIdx, descs, ring
      ensures View().Valid() && (ok <==> 0 !in addrs)
      ensures ok ==> forall l ::
                (View() == AfterOps(l, Blank(n), Posts(addrs, bufSize)) <==> old(availIdx) == 0 && usedIdx == 0)
    {
      hide AfterOps;
      ghost var stale := availIdx;
      for i := 0 to n
        invariant View() == Posted(n, addrs[..i], bufSize, stale).(usedIdx := usedIdx) && 0 !in addrs[..i]
      {
        ghost var before := View();
        descs[i] := Buf(addrs[i], descs[i].len);
        if addrs[i] == 0 {
          assert addrs[i] in addrs;
          return false;
        }
        descs[i] := Buf(descs[i].addr, bufSize);
        ring[i] := i;
        availIdx := Inc16(availIdx);
        PostedNext(n, addrs, bufSize, stale, i);
        assert View() == Posted(n, addrs[..i + 1], bufSize, stale).(usedIdx := usedIdx);
      }
      assert addrs[..n] == addrs;
      ok := true;
      forall l
        ensures View() == AfterOps(l, Blank(n), Posts(addrs, bufSize)) <==> stale == 0 && usedIdx == 0
      {
        PostedIsPosts(l, n, addrs, bufSize, n);
        CountsDiffer(n, stale);
      }
    }

    method AddBuffer(buf: Buf)
      requires View().Valid()
      modifies this`availIdx, descs, ring
      ensures View() == AddBuf(old(View()), buf)
    {
      var slot := Mod(availIdx, n);
      descs[slot] := buf;
      ring[slot] := slot;
      availIdx := Inc16(availIdx);
      assert descs[..] == old(descs[..])[slot := buf];
      assert ring[..] == old(ring[..])[slot := slot];
    }

    method GetBuffer(l: Layout) returns (r: Option<Buf>)
      requires View().Valid()
      modifies this`tail
      ensures r == NextBuf(l, old(View())) && View() == GetBuf(l, old(View()))
    {
      if availIdx == tail {
        return None;
      }
      var id := ring[Mod(tail, n)];
      if id > n {
        return None;
      }
      var desc := l.beyond;
      if id < n {
        desc := descs[id];
      } else if Oob(l.mem, l.descAddr + 16 * id, 16) {
        return None;
      }
      if Oob(l.mem, desc.addr, desc.len) {
        return None;
      }
      tail := Inc16(tail);
      return Some(desc);
    }

    method PutBuffer(l: Layout) returns (ok: bool)
      requires View().Valid()
      modifies this`usedIdx
      ensures ok == CanPut(l, old(View())) && View() == PutBuf(l, old(View()))
    {
      if usedIdx == tail {
        return false;
      }
      if Oob(l.mem, l.usedAddr + 4 + 8 * n, 8) {
        return false;
      }
      usedIdx := Inc16(usedIdx);
      return true;
    }
  }

  // ------------------------------------------------------------------ runs

  datatype Op = Post(buf: Buf) | Take | Put

  function Apply(l: Layout, r: Ring, op: Op): (r': Ring)
    requires r.Valid()
    ensures r'.Valid() && r'.n == r.n
  {
    match op
    case Post(buf) => AddBuf(r, buf)
    case Take => GetBuf(l, r)
    case Put => PutBuf(l, r)
  }

  function AfterOps(l: Layout, r: Ring, ops: seq<Op>): (r': Ring)
    requires r.Valid()
    ensures r'.Valid() && r'.n == r.n
    decreases |ops|
  {
    if ops == [] then r else AfterOps(l, Apply(l, r, ops[0]), ops[1..])
  }

  function Blank(n: nat): (r: Ring)
    requires 0 < n < 32768
    ensures r.Valid()
  {
    Ring(n, seq(n, _ => Buf(0, 0)), seq(n, _ => 0), 0, 0, 0)
  }

  function Posts(addrs: seq<nat>, bufSize: nat): seq<Op> {
    seq(|addrs|, i requires 0 <= i < |addrs| => Post(Buf(addrs[i], bufSize)))
  }

  lemma {:induction false} AfterConcat(l: Layout, r: Ring, a: seq<Op>, b: seq<Op>)
    requires r.Valid()
    ensures AfterOps(l, r, a + b) == AfterOps(l, AfterOps(l, r, a), b)
    decreases |a|
  {
    if a == [] {
      assert a + b == b;
    } else {
      AfterConcat(l, Apply(l, r, a[0]), a[1..], b);
      assert (a + b)[1..] == a[1..] + b;
    }
  }

  lemma AfterSnoc(l: Layout, r: Ring, ops: seq<Op>, op: Op)
    requires r.Valid()
    ensures AfterOps(l, r, ops + [op]) == Apply(l, AfterOps(l, r, ops), op)
  {
    AfterConcat(l, r, ops, [op]);
    assert AfterOps(l, AfterOps(l, r, ops), [op]) == Apply(l, AfterOps(l, r, ops), op);
  }

  /** The queue after the first buffers were posted over an index that began at `stale`. */
  function Posted(n: nat, addrs: seq<nat>, bufSize: nat, stale: nat): Ring
    requires |addrs| <= n
  {
    Ring(n,
         seq(n, i requires 0 <= i < n => if i < |addrs| then Buf(addrs[i], bufSize) else Buf(0, 0)),
         seq(n, i requires 0 <= i < n => if i < |addrs| then i else 0),
         Count16(stale + |addrs|), 0, 0)
  }

  lemma PostedNext(n: nat, addrs: seq<nat>, bufSize: nat, stale: nat, i: nat)
    requires i < n == |addrs|
    ensures var p := Posted(n, addrs[..i], bufSize, stale);
            Posted(n, addrs[..i + 1], bufSize, stale) ==
            p.(descs := p.descs[i := Buf(addrs[i], bufSize)], ring := p.ring[i := i], availIdx := Inc16(p.availIdx))
  {
    CountNext(stale + i);
    var p, p' := Posted(n, addrs[..i], bufSize, stale), Posted(n, addrs[..i + 1], bufSize, stale);
    assert p'.descs == p.descs[i := Buf(addrs[i], bufSize)];
    assert p'.ring == p.ring[i := i];
  }

  /** From a zero index, that is the posting of the buffers one by one. */
  lemma {:induction false} PostedIsPosts(l: Layout, n: nat, addrs: seq<nat>, bufSize: nat, k: nat)
    requires k <= n == |addrs| && 0 < n < 32768
    ensures AfterOps(l, Blank(n), Posts(addrs[..k], bufSize)) == Posted(n, addrs[..k], bufSize, 0)
    decreases k
  {
    if k == 0 {
      assert Posted(n, addrs[..0], bufSize, 0) == Blank(n);
    } else {
      PostedIsPosts(l, n, addrs, bufSize, k - 1);
      PostedNext(n, addrs, bufSize, 0, k - 1);
      var posts, op := Posts(addrs[..k - 1], bufSize), Post(Buf(addrs[k - 1], bufSize));
      assert Posts(addrs[..k], bufSize) == posts + [op];
      AfterSnoc(l, Blank(n), posts, op);
      SmallCount(k - 1, n);
    }
  }

  lemma SmallCount(k: nat, n: nat)
    requires k < n < 32768
    ensures Mod(Count16(k), n) == k
  {
  }

  /** Whatever the guest has written into the ring and the table: a buffer is taken exactly if the index
      differs from the tail, the slot names an id up to and including the size, the bytes behind the table
      are memory if it is the size, and the buffer itself is. The tail then moves on by one; nothing else
      changes. */
  lemma TakenIff(l: Layout, r: Ring)
    requires r.Valid()
    ensures var id := r.ring[Mod(r.tail, r.n)];
            var buf := if id < r.n then r.descs[id] else l.beyond;
            var taken := && r.availIdx != r.tail && id <= r.n && !Oob(l.mem, buf.addr, buf.len)
                         && (id == r.n ==> !Oob(l.mem, l.descAddr + 16 * r.n, 16));
            && NextBuf(l, r) == (if taken then Some(buf) else None)
            && GetBuf(l, r) == (if taken then r.(tail := if r.tail == 0xFFFF then 0 else r.tail + 1) else r)
  {
    hide Mod, Oob;
  }

  // ------------------------------------------------- the queue it should be

  /** The intended behaviour: a first-in first-out list of buffers, and the number that the device has
      taken and not given back. */
  datatype Fifo = Fifo(waiting: seq<Buf>, held: nat)

  /** `accepts` tells whether an element can be written at all. The device compares 16-bit counters, so a
      buffer is also refused when it holds a multiple of 65536. */
  function ApplySpec(f: Fifo, op: Op, accepts: bool): Fifo {
    match op
    case Post(buf) => f.(waiting := f.waiting + [buf])
    case Take => if f.waiting == [] then f else Fifo(f.waiting[1..], f.held + 1)
    case Put => if !accepts || Count16(f.held) == 0 then f else f.(held := f.held - 1)
  }

  function AfterSpec(f: Fifo, ops: seq<Op>, accepts: bool): Fifo
    decreases |ops|
  {
    if ops == [] then f else AfterSpec(ApplySpec(f, ops[0], accepts), ops[1..], accepts)
  }

  /** The driver posts in-range buffers, never more than the queue size at a time beyond what the device
      has taken. */
  predicate Polite(n: nat, l: Layout, f: Fifo, ops: seq<Op>)
    decreases |ops|
  {
    ops != [] ==>
      && (ops[0].Post? ==> |f.waiting| < n && !Oob(l.mem, ops[0].buf.addr, ops[0].buf.len))
      && Polite(n, l, ApplySpec(f, ops[0], ElementFits(l, n)), ops[1..])
  }

  function Head(f: Fifo): Option<Buf> {
    if f.waiting == [] then None else Some(f.waiting[0])
  }

  /** After every polite run the device's next buffer is the oldest waiting one. */
  ghost predicate TakesInOrder(n: nat, l: Layout)
    requires 0 < n < 32768
  {
    forall ops :: Polite(n, l, Fifo([], 0), ops) ==>
      NextBuf(l, AfterOps(l, Blank(n), ops)) == Head(AfterSpec(Fifo([], 0), ops, ElementFits(l, n)))
  }

  /** And as long as it holds fewer than 65536 buffers, `put_buf` accepts exactly when it holds one. */
  ghost predicate IsFifo(n: nat, l: Layout)
    requires 0 < n < 32768
  {
    && TakesInOrder(n, l)
    && forall ops :: Polite(n, l, Fifo([], 0), ops) ==>
         var held := AfterSpec(Fifo([], 0), ops, ElementFits(l, n)).held;
         held < U16 ==> (CanPut(l, AfterOps(l, Blank(n), ops)) <==> held > 0)
  }

  // --------------------------------------------------- dividing sizes work

  /** `taken` buffers have been taken so far; the waiting ones sit in consecutive slots. */
  ghost predicate Offers(r: Ring, waiting: seq<Buf>, l: Layout, taken: nat) {
    && r.Valid() && |waiting| <= r.n
    && r.availIdx == Count16(taken + |waiting|)
    && r.tail == Count16(taken)
    && forall k :: 0 <= k < |waiting| ==> SlotHolds(r, Mod(taken + k, r.n), waiting[k], l)
  }

  /** All but `held` of those taken have been given back. */
  ghost predicate Represents(r: Ring, f: Fifo, l: Layout, taken: nat) {
    Offers(r, f.waiting, l, taken) && f.held <= taken && r.usedIdx == Count16(taken - f.held)
  }

  predicate SlotHolds(r: Ring, slot: nat, buf: Buf, l: Layout) {
    && slot < |r.ring| && slot < |r.descs| && r.ring[slot] == slot && r.descs[slot] == buf
    && !Oob(l.mem, buf.addr, buf.len)
  }

  /** Reducing to 16 bits first does not change the slot. */
  lemma {:induction false} SlotOfCounter(x: nat, n: nat)
    requires n > 0 && Mod(U16, n) == 0
    ensures Mod(Count16(x), n) == Mod(x, n)
    decreases x
  {
    if x >= U16 {
      SlotOfCounter(x - U16, n);
      ModPlusMultiple(x - U16, U16, n);
    }
  }

  lemma SlotsDiffer(t: nat, i: nat, j: nat, n: nat)
    requires i < j < i + n
    ensures Mod(t + i, n) != Mod(t + j, n)
  {
    ModShiftDiffers(t + i, j - i, n);
  }

  /** The slot behind the waiting buffers, with the given contents. */
  function Written(r: Ring, slot: nat, desc: Buf, id: nat): Ring
    requires r.Valid() && slot < r.n
  {
    r.(descs := r.descs[slot := desc], ring := r.ring[slot := id])
  }

  /** While fewer than `n` buffers wait, the next slot can be written without disturbing them. */
  lemma WriteKeeps(r: Ring, waiting: seq<Buf>, l: Layout, taken: nat, desc: Buf, id: nat)
    requires Offers(r, waiting, l, taken) && |waiting| < r.n
    ensures Offers(Written(r, Mod(taken + |waiting|, r.n), desc, id), waiting, l, taken)
  {
    var r' := Written(r, Mod(taken + |waiting|, r.n), desc, id);
    forall k | 0 <= k < |waiting|
      ensures SlotHolds(r', Mod(taken + k, r.n), waiting[k], l)
    {
      SlotsDiffer(taken, k, |waiting|, r.n);
      assert SlotHolds(r, Mod(taken + k, r.n), waiting[k], l);
    }
  }

  lemma PublishKeeps(r: Ring, waiting: seq<Buf>, l: Layout, taken: nat, buf: Buf)
    requires Offers(r, waiting, l, taken) && |waiting| < r.n
    requires SlotHolds(r, Mod(taken + |waiting|, r.n), buf, l)
    ensures Offers(r.(availIdx := Inc16(r.availIdx)), waiting + [buf], l, taken)
  {
    CountNext(taken + |waiting|);
    var r', more := r.(availIdx := Inc16(r.availIdx)), waiting + [buf];
    forall k | 0 <= k < |more|
      ensures SlotHolds(r', Mod(taken + k, r.n), more[k], l)
    {
      assert k < |waiting| ==> SlotHolds(r, Mod(taken + k, r.n), waiting[k], l);
    }
  }

  lemma AdvanceKeeps(r: Ring, waiting: seq<Buf>, l: Layout, taken: nat)
    requires Offers(r, waiting, l, taken) && waiting != []
    ensures Offers(r.(tail := Inc16(r.tail)), waiting[1..], l, taken + 1)
  {
    CountNext(taken);
    var r', rest := r.(tail := Inc16(r.tail)), waiting[1..];
    assert taken + 1 + |rest| == taken + |waiting|;
    forall k | 0 <= k < |rest|
      ensures SlotHolds(r', Mod(taken + 1 + k, r.n), rest[k], l)
    {
      assert SlotHolds(r, Mod(taken + (k + 1), r.n), waiting[k + 1], l);
    }
  }

  lemma PostKeeps(r: Ring, f: Fifo, l: Layout, taken: nat, buf: Buf)
    requires Represents(r, f, l, taken) && Mod(U16, r.n) == 0
    requires |f.waiting| < r.n && !Oob(l.mem, buf.addr, buf.len)
    ensures Represents(AddBuf(r, buf), ApplySpec(f, Post(buf), ElementFits(l, r.n)), l, taken)
  {
    var slot := Mod(taken + |f.waiting|, r.n);
    SlotOfCounter(taken + |f.waiting|, r.n);
    WriteKeeps(r, f.waiting, l, taken, buf, slot);
    PublishKeeps(Written(r, slot, buf, slot), f.waiting, l, taken, buf);
  }

  lemma NextIsHead(r: Ring, f: Fifo, l: Layout, taken: nat)
    requires Represents(r, f, l, taken) && Mod(U16, r.n) == 0
    ensures NextBuf(l, r) == Head(f)
  {
    CountsDiffer(taken, |f.waiting|);
    if f.waiting != [] {
      SlotOfCounter(taken, r.n);
      assert SlotHolds(r, Mod(taken + 0, r.n), f.waiting[0], l);
    }
  }

  /** The 16-bit comparison sees the number held modulo 65536. */
  lemma {:induction false} CountsAgree(x: nat, d: nat)
    ensures Count16(x + d) == Count16(x) <==> Count16(d) == 0
    decreases d
  {
    if d < U16 {
      CountsDiffer(x, d);
    } else {
      CountsAgree(x, d - U16);
      ModPlusMultiple(x + (d - U16), U16, U16);
    }
  }

  lemma UsedFullIff(r: Ring, f: Fifo, l: Layout, taken: nat)
    requires Represents(r, f, l, taken)
    ensures UsedFull(r) <==> Count16(f.held) == 0
  {
    CountsAgree(taken - f.held, f.held);
  }

  lemma TakeKeeps(r: Ring, f: Fifo, l: Layout, taken: nat)
    requires Represents(r, f, l, taken) && Mod(U16, r.n) == 0 && f.waiting != []
    ensures Represents(GetBuf(l, r), ApplySpec(f, Take, ElementFits(l, r.n)), l, taken + 1)
  {
    NextIsHead(r, f, l, taken);
    AdvanceKeeps(r, f.waiting, l, taken);
    assert taken + 1 - (f.held + 1) == taken - f.held;
  }

  lemma PutKeeps(r: Ring, f: Fifo, l: Layout, taken: nat)
    requires Represents(r, f, l, taken)
    ensures Represents(PutBuf(l, r), ApplySpec(f, Put, ElementFits(l, r.n)), l, taken)
  {
    UsedFullIff(r, f, l, taken);
    var r', f' := PutBuf(l, r), ApplySpec(f, Put, ElementFits(l, r.n));
    if f'.held != f.held {
      CountNext(taken - f.held);
      assert taken - f.held + 1 == taken - f'.held;
    }
    forall k | 0 <= k < |f.waiting|
      ensures SlotHolds(r', Mod(taken + k, r.n), f.waiting[k], l)
    {
      assert SlotHolds(r, Mod(taken + k, r.n), f.waiting[k], l);
    }
  }

  /** With a size dividing 65536 every polite run is represented, through any number of wraps. */
  lemma {:induction false} DividingRuns(r: Ring, f: Fifo, l: Layout, taken: nat, ops: seq<Op>)
    returns (taken': nat)
    requires Represents(r, f, l, taken) && Mod(U16, r.n) == 0 && Polite(r.n, l, f, ops)
    ensures Represents(AfterOps(l, r, ops), AfterSpec(f, ops, ElementFits(l, r.n)), l, taken')
    decreases |ops|
  {
    if ops == [] {
      return taken;
    }
    var next := taken;
    match ops[0] {
      case Post(buf) =>
        PostKeeps(r, f, l, taken, buf);
      case Take =>
        if f.waiting == [] {
          NextIsHead(r, f, l, taken);
        } else {
          TakeKeeps(r, f, l, taken);
          next := taken + 1;
        }
      case Put =>
        PutKeeps(r, f, l, taken);
    }
    taken' := DividingRuns(Apply(l, r, ops[0]), ApplySpec(f, ops[0], ElementFits(l, r.n)), l, next, ops[1..]);
  }

  /** For these sizes, after every polite run, however many buffers the device holds: the next buffer is
      the oldest waiting one, and a buffer can be given back exactly if the element behind the used area
      is in bounds and the number held is not a multiple of 65536. */
  lemma DividingRun(n: nat, l: Layout, ops: seq<Op>)
    requires 0 < n < 32768 && Mod(U16, n) == 0 && Polite(n, l, Fifo([], 0), ops)
    ensures var r := AfterOps(l, Blank(n), ops);
            var f := AfterSpec(Fifo([], 0), ops, ElementFits(l, n));
            NextBuf(l, r) == Head(f) && (CanPut(l, r) <==> ElementFits(l, n) && Count16(f.held) != 0)
  {
    var taken := DividingRuns(Blank(n), Fifo([], 0), l, 0, ops);
    var r, f := AfterOps(l, Blank(n), ops), AfterSpec(Fifo([], 0), ops, ElementFits(l, n));
    NextIsHead(r, f, l, taken);
    UsedFullIff(r, f, l, taken);
  }

  /** Buffers are taken in order, wherever the used area lies; and they can be given back exactly if that
      element is in bounds. */
  lemma DividingIsFifo(n: nat, l: Layout)
    requires 0 < n < 32768 && Mod(U16, n) == 0 && l.mem.Valid()
    ensures TakesInOrder(n, l) && (IsFifo(n, l) <==> ElementFits(l, n))
  {
    forall ops | Polite(n, l, Fifo([], 0), ops)
      ensures var r := AfterOps(l, Blank(n), ops);
              var f := AfterSpec(Fifo([], 0), ops, ElementFits(l, n));
              NextBuf(l, r) == Head(f) && (CanPut(l, r) <==> ElementFits(l, n) && Count16(f.held) != 0)
    {
      DividingRun(n, l, ops);
    }
    if !ElementFits(l, n) {
      RefusedPut(n, l);
    }
  }

  /** One buffer posted and taken, which cannot be given back. */
  lemma RefusedPut(n: nat, l: Layout)
    requires 0 < n < 32768 && l.mem.Valid() && !ElementFits(l, n)
    ensures !IsFifo(n, l)
  {
    var buf := Buf(l.mem.start, 0);
    OobIsExact(l.mem, buf.addr, buf.len);
    OneRound(n, l, Blank(n), buf, 0);
    assert !CanPut(l, AfterOps(l, Blank(n), Round(buf)));
  }

  /** With 65536 buffers posted and taken, one after another, none can be given back, whatever the size
      and wherever the areas lie. */
  lemma HoldingAllRefused(n: nat, l: Layout, buf: Buf)
    requires 0 < n < 32768 && !Oob(l.mem, buf.addr, buf.len)
    ensures Polite(n, l, Fifo([], 0), Rounds(buf, U16))
    ensures AfterSpec(Fifo([], 0), Rounds(buf, U16), ElementFits(l, n)).held == U16
    ensures !CanPut(l, AfterOps(l, Blank(n), Rounds(buf, U16)))
  {
    RoundsBalance(n, l, Blank(n), buf, 0, U16);
  }

  // ---------------------------------------------------- other sizes do not

  lemma {:induction false} PoliteConcat(n: nat, l: Layout, f: Fifo, a: seq<Op>, b: seq<Op>)
    requires Polite(n, l, f, a) && Polite(n, l, AfterSpec(f, a, ElementFits(l, n)), b)
    ensures Polite(n, l, f, a + b)
    ensures AfterSpec(f, a + b, ElementFits(l, n)) ==
            AfterSpec(AfterSpec(f, a, ElementFits(l, n)), b, ElementFits(l, n))
    decreases |a|
  {
    if a == [] {
      assert a + b == b;
    } else {
      PoliteConcat(n, l, ApplySpec(f, a[0], ElementFits(l, n)), a[1..], b);
      assert (a + b)[1..] == a[1..] + b;
    }
  }

  /** A buffer posted and taken. */
  function Round(buf: Buf): seq<Op> {
    [Post(buf), Take]
  }

  function Rounds(buf: Buf, k: nat): (ops: seq<Op>) {
    if k == 0 then [] else Round(buf) + Rounds(buf, k - 1)
  }

  lemma OneRound(n: nat, l: Layout, r: Ring, buf: Buf, held: nat)
    requires r.Valid() && r.n == n && r.availIdx == r.tail && !Oob(l.mem, buf.addr, buf.len)
    ensures Polite(n, l, Fifo([], held), Round(buf))
    ensures AfterSpec(Fifo([], held), Round(buf), ElementFits(l, n)) == Fifo([], held + 1)
    ensures var r' := AfterOps(l, r, Round(buf));
            r'.availIdx == r'.tail == Inc16(r.availIdx) && r'.usedIdx == r.usedIdx
  {
    var ops := Round(buf);
    assert ops[1..] == [Take] && ops[1..][1..] == [];
    var f1 := ApplySpec(Fifo([], held), Post(buf), ElementFits(l, n));
    assert f1 == Fifo([buf], held);
    assert ApplySpec(f1, Take, ElementFits(l, n)) == Fifo([], held + 1);
    assert Polite(n, l, f1, [Take]);
    var r1 := AddBuf(r, buf);
    assert NextBuf(l, r1) == Some(buf);
    assert AfterOps(l, r1, [Take]) == GetBuf(l, r1);
  }

  lemma {:induction false} RoundsBalance(n: nat, l: Layout, r: Ring, buf: Buf, count: nat, k: nat)
    requires r.Valid() && r.n == n && r.availIdx == r.tail == Count16(count)
    requires !Oob(l.mem, buf.addr, buf.len)
    ensures Polite(n, l, Fifo([], count), Rounds(buf, k))
    ensures AfterSpec(Fifo([], count), Rounds(buf, k), ElementFits(l, n)) == Fifo([], count + k)
    ensures var r' := AfterOps(l, r, Rounds(buf, k));
            r'.availIdx == r'.tail == Count16(count + k) && r'.usedIdx == r.usedIdx
    decreases k
  {
    if k > 0 {
      OneRound(n, l, r, buf, count);
      CountNext(count);
      RoundsBalance(n, l, AfterOps(l, r, Round(buf)), buf, count + 1, k - 1);
      PoliteConcat(n, l, Fifo([], count), Round(buf), Rounds(buf, k - 1));
      AfterConcat(l, r, Round(buf), Rounds(buf, k - 1));
    }
  }

  function Repeated(buf: Buf, k: nat): (ops: seq<Op>) {
    if k == 0 then [] else [Post(buf)] + Repeated(buf, k - 1)
  }

  /** `k` buffers posted in a row, not yet taken: what the driver intends ... */
  lemma {:induction false} PileIntended(n: nat, l: Layout, f: Fifo, buf: Buf, k: nat)
    requires |f.waiting| + k <= n && !Oob(l.mem, buf.addr, buf.len)
    requires forall i :: 0 <= i < |f.waiting| ==> f.waiting[i] == buf
    ensures Polite(n, l, f, Repeated(buf, k))
    ensures var f' := AfterSpec(f, Repeated(buf, k), ElementFits(l, n));
            |f'.waiting| == |f.waiting| + k && forall i :: 0 <= i < |f'.waiting| ==> f'.waiting[i] == buf
    decreases k
  {
    if k > 0 {
      PileIntended(n, l, ApplySpec(f, Post(buf), ElementFits(l, n)), buf, k - 1);
      assert Repeated(buf, k)[1..] == Repeated(buf, k - 1);
    }
  }

  /** ... and what it does to the counters. */
  lemma {:induction false} PileCounters(l: Layout, r: Ring, buf: Buf, count: nat, k: nat)
    requires r.Valid() && r.availIdx == Count16(count)
    ensures var r' := AfterOps(l, r, Repeated(buf, k));
            r'.availIdx == Count16(count + k) && r'.tail == r.tail
    decreases k
  {
    if k > 0 {
      CountNext(count);
      PileCounters(l, AddBuf(r, buf), buf, count + 1, k - 1);
      assert Repeated(buf, k)[1..] == Repeated(buf, k - 1);
    }
  }

  lemma {:induction false} ExcessStripped(x: nat, n: nat)
    requires n > 0
    ensures Mod(x, n) <= x && Mod(x - Mod(x, n), n) == 0
    decreases x
  {
    if x >= n {
      ExcessStripped(x - n, n);
    }
  }

  /** With the counters about to wrap and slot 0 holding the oldest waiting buffer, the next post
      reuses slot 0. */
  lemma WrapOverwrites(l: Layout, r: Ring, buf: Buf)
    requires r.Valid() && r.availIdx == 0 && r.tail > 0 && Mod(r.tail, r.n) == 0 && !Oob(l.mem, buf.addr, buf.len)
    requires r.tail != 1
    ensures NextBuf(l, AddBuf(r, buf)) == Some(buf)
  {
    assert Mod(r.availIdx, r.n) == 0;
  }

  /** If the size does not divide 65536, slot 0 is reused too early when the counter wraps: the oldest
      waiting buffer is overwritten by the newest. */
  lemma OtherSizesFail(n: nat, l: Layout)
    requires 0 < n < 32768 && Mod(U16, n) != 0 && l.mem.Valid()
    ensures !TakesInOrder(n, l)
  {
    var excess := Mod(U16, n);
    var first, last := Buf(l.mem.start, 0), Buf(l.mem.start, 1);
    OobIsExact(l.mem, l.mem.start, 0);
    OobIsExact(l.mem, l.mem.start, 1);
    var ops := Rounds(first, U16 - excess) + Repeated(first, excess) + [Post(last)];
    BrokenIntended(n, l, first, last, excess);
    BrokenRing(n, l, first, last, excess);
    assert NextBuf(l, AfterOps(l, Blank(n), ops)) != Head(AfterSpec(Fifo([], 0), ops, ElementFits(l, n)));
  }

  lemma BrokenIntended(n: nat, l: Layout, first: Buf, last: Buf, excess: nat)
    requires 0 < excess < n < 32768 && !Oob(l.mem, first.addr, first.len) && !Oob(l.mem, last.addr, last.len)
    ensures var ops := Rounds(first, U16 - excess) + Repeated(first, excess) + [Post(last)];
            Polite(n, l, Fifo([], 0), ops) && Head(AfterSpec(Fifo([], 0), ops, ElementFits(l, n))) == Some(first)
  {
    var rounds, pile := Rounds(first, U16 - excess), Repeated(first, excess);
    RoundsBalance(n, l, Blank(n), first, 0, U16 - excess);
    PileIntended(n, l, Fifo([], U16 - excess), first, excess);
    var f := AfterSpec(Fifo([], U16 - excess), pile, ElementFits(l, n));
    PoliteConcat(n, l, Fifo([], 0), rounds, pile);
    assert Polite(n, l, f, [Post(last)]);
    assert AfterSpec(f, [Post(last)], ElementFits(l, n)) == ApplySpec(f, Post(last), ElementFits(l, n));
    PoliteConcat(n, l, Fifo([], 0), rounds + pile, [Post(last)]);
  }

  lemma BrokenRing(n: nat, l: Layout, first: Buf, last: Buf, excess: nat)
    requires 0 < excess < n < 32768 && Mod(U16, n) == excess
    requires !Oob(l.mem, first.addr, first.len) && !Oob(l.mem, last.addr, last.len)
    ensures var ops := Rounds(first, U16 - excess) + Repeated(first, excess) + [Post(last)];
            NextBuf(l, AfterOps(l, Blank(n), ops)) == Some(last)
  {
    var rounds, pile := Rounds(first, U16 - excess), Repeated(first, excess);
    RoundsBalance(n, l, Blank(n), first, 0, U16 - excess);
    var r1 := AfterOps(l, Blank(n), rounds);
    PileCounters(l, r1, first, U16 - excess, excess);
    var r2 := AfterOps(l, r1, pile);
    assert r2.availIdx == Count16(U16) == 0;
    assert r2.tail == Count16(U16 - excess) == U16 - excess;
    ExcessStripped(U16, n);
    WrapOverwrites(l, r2, last);
    AfterConcat(l, Blank(n), rounds, pile);
    AfterSnoc(l, Blank(n), rounds + pile, Post(last));
  }

  /** The device takes buffers in the order they were posted exactly if the size divides 65536, wherever
      the areas lie and however many buffers it holds; and the rings together are a FIFO exactly if,
      besides, the element that `put_buf` writes behind the used area is in bounds. */
  lemma FifoIffSizeDivides(n: nat, l: Layout)
    requires 0 < n < 32768 && l.mem.Valid()
    ensures TakesInOrder(n, l) <==> U16 % n == 0
    ensures IsFifo(n, l) <==> U16 % n == 0 && ElementFits(l, n)
    ensures l.usedAddr + 4 + 8 * n < U64 ==> (ElementFits(l, n) <==> Inside(l.mem, l.usedAddr + 4 + 8 * n, 8))
  {
    ModIsRemainder(U16, n);
    if l.usedAddr + 4 + 8 * n < U64 {
      OobIsExact(l.mem, l.usedAddr + 4 + 8 * n, 8);
    }
    if Mod(U16, n) == 0 {
      DividingIsFifo(n, l);
    } else {
      OtherSizesFail(n, l);
    }
  }

  /** The kernel's 9P queues have twenty buffers: they are not a FIFO once the counter wraps. */
  lemma TwentyBuffersFail(descAddr: nat, usedAddr: nat, beyond: Buf)
    ensures !TakesInOrder(20, Layout(SYSTEM_MEMORY, descAddr, usedAddr, beyond))
  {
    FifoIffSizeDivides(20, Layout(SYSTEM_MEMORY, descAddr, usedAddr, beyond));
  }
}
