/** The available and used rings once more, with the driver and the device interleaved store by store and
    load by load (boot/kernel/virtio_drv.c and devices/utils/virtio.cpp). */
module VirtioSteps {
  import opened Words
  import opened GuestMemory
  import opened VirtioRing

  // ------------------------------------------------------------- state machine

  /** Where the driver is in `add_buf`, for which slot and buffer. */
  datatype Driver =
    | Idle
    | WroteAddr(slot: nat, buf: Buf)
    | WroteLen(slot: nat, buf: Buf)
    | WroteSlot(slot: nat, buf: Buf)

  /** Where the device is in `get_buf`, and what it has read. */
  datatype Getter =
    | Waiting
    | SawSome
    | HasId(id: nat)
    | HasAddr(id: nat, addr: nat)
    | HasDesc(buf: Buf)

  /** Where the device is in `put_buf`. */
  datatype Putter = Resting | Passed(head: nat)

  /** The last four fields are history: the buffers published, the buffers taken, the number given back,
      and how often `get_buf` saw a buffer and returned none. */
  datatype State = State(
    r: Ring, driver: Driver, getter: Getter, putter: Putter,
    posted: seq<Buf>, taken: seq<Buf>, given: nat, misses: nat) {
    predicate Valid() {
      r.Valid() && (driver.Idle? || driver.slot < r.n) && (putter.Passed? ==> putter.head < U16)
    }
  }

  datatype Event =
    | WriteAddr(buf: Buf) | WriteLen | WriteSlot | Publish       // add_buf
    | LoadIndex | LoadSlot | LoadAddr | LoadLen | Advance        // get_buf
    | CheckUsed | StoreUsed                                      // put_buf

  predicate OfDriver(e: Event) {
    e.WriteAddr? || e.WriteLen? || e.WriteSlot? || e.Publish?
  }

  /** Each party goes on where it is. The driver begins with an in-range buffer, and only while fewer
      buffers are published and not taken than the queue has slots. */
  predicate Enabled(l: Layout, s: State, e: Event) {
    match e
    case WriteAddr(buf) =>
      s.driver.Idle? && |s.posted| - |s.taken| < s.r.n && !Oob(l.mem, buf.addr, buf.len)
    case WriteLen => s.driver.WroteAddr?
    case WriteSlot => s.driver.WroteLen?
    case Publish => s.driver.WroteSlot?
    case LoadIndex => s.getter.Waiting?
    case LoadSlot => s.getter.SawSome?
    case LoadAddr => s.getter.HasId?
    case LoadLen => s.getter.HasAddr?
    case Advance => s.getter.HasDesc?
    case CheckUsed => s.putter.Resting?
    case StoreUsed => s.putter.Passed?
  }

  function Missed(s: State): State {
    s.(getter := Waiting, misses := s.misses + 1)
  }

  function DriverStep(l: Layout, s: State, e: Event): (s': State)
    requires s.Valid() && Enabled(l, s, e) && OfDriver(e)
    ensures s'.Valid() && s'.r.n == s.r.n
  {
    match e
    case WriteAddr(buf) =>
      var slot := Mod(s.r.availIdx, s.r.n);
      var desc := s.r.descs[slot].(addr := buf.addr);
      s.(r := Written(s.r, slot, desc, s.r.ring[slot]), driver := WroteAddr(slot, buf))
    case WriteLen =>
      var slot, buf := s.driver.slot, s.driver.buf;
      var desc := s.r.descs[slot].(len := buf.len);
      s.(r := Written(s.r, slot, desc, s.r.ring[slot]), driver := WroteLen(slot, buf))
    case WriteSlot =>
      var slot, buf := s.driver.slot, s.driver.buf;
      s.(r := Written(s.r, slot, s.r.descs[slot], slot), driver := WroteSlot(slot, buf))
    case Publish =>
      s.(r := s.r.(availIdx := Inc16(s.r.availIdx)), driver := Idle, posted := s.posted + [s.driver.buf])
  }

  function DeviceStep(l: Layout, s: State, e: Event): (s': State)
    requires s.Valid() && Enabled(l, s, e) && !OfDriver(e)
    ensures s'.Valid() && s'.r.n == s.r.n
  {
    match e
    case LoadIndex =>
      if s.r.availIdx == s.r.tail then s else s.(getter := SawSome)
    case LoadSlot =>
      s.(getter := HasId(s.r.ring[Mod(s.r.tail, s.r.n)]))
    case LoadAddr =>
      var desc := Descriptor(l, s.r, s.getter.id);
      if desc.None? then Missed(s) else s.(getter := HasAddr(s.getter.id, desc.value.addr))
    case LoadLen =>
      var desc := Descriptor(l, s.r, s.getter.id);
      if desc.None? then Missed(s) else s.(getter := HasDesc(Buf(s.getter.addr, desc.value.len)))
    case Advance =>
      var buf := s.getter.buf;
      if Oob(l.mem, buf.addr, buf.len) then Missed(s)
      else s.(r := s.r.(tail := Inc16(s.r.tail)), getter := Waiting, taken := s.taken + [buf])
    case CheckUsed =>
      if CanPut(l, s.r) then s.(putter := Passed(s.r.usedIdx)) else s
    case StoreUsed =>
      s.(r := s.r.(usedIdx := Inc16(s.putter.head)), putter := Resting, given := s.given + 1)
  }

  function Step(l: Layout, s: State, e: Event): (s': State)
    requires s.Valid() && Enabled(l, s, e)
    ensures s'.Valid() && s'.r.n == s.r.n
  {
    if OfDriver(e) then DriverStep(l, s, e) else DeviceStep(l, s, e)
  }

  predicate IsRun(l: Layout, s: State, es: seq<Event>)
    requires s.Valid()
    decreases |es|
  {
    es == [] || (Enabled(l, s, es[0]) && IsRun(l, Step(l, s, es[0]), es[1..]))
  }

  function After(l: Layout, s: State, es: seq<Event>): (s': State)
    requires s.Valid() && IsRun(l, s, es)
    ensures s'.Valid() && s'.r.n == s.r.n
    decreases |es|
  {
    if es == [] then s else After(l, Step(l, s, es[0]), es[1..])
  }

  function Start(n: nat): (s: State)
    requires 0 < n < 32768
    ensures s.Valid()
  {
    State(Blank(n), Idle, Waiting, Resting, [], [], 0, 0)
  }

  // ------------------------------------------------------------------ invariant

  /** The driver writes the slot behind the waiting buffers; what it has written so far is there. */
  ghost predicate DriverAt(l: Layout, s: State)
    requires s.Valid()
  {
    s.driver.Idle? ||
    (var slot, buf := s.driver.slot, s.driver.buf;
     && slot == Mod(|s.posted|, s.r.n) && |s.posted| - |s.taken| < s.r.n && !Oob(l.mem, buf.addr, buf.len)
     && s.r.descs[slot].addr == buf.addr
     && (s.driver.WroteLen? || s.driver.WroteSlot? ==> s.r.descs[slot] == buf)
     && (s.driver.WroteSlot? ==> s.r.ring[slot] == slot))
  }

  /** What the device has read so far is of the oldest buffer not taken. */
  ghost predicate GetterAt(s: State)
    requires s.Valid()
  {
    s.getter.Waiting? ||
    (&& |s.taken| < |s.posted|
     && var next := s.posted[|s.taken|];
        match s.getter
        case Waiting => true
        case SawSome => true
        case HasId(id) => id == Mod(|s.taken|, s.r.n)
        case HasAddr(id, addr) => id == Mod(|s.taken|, s.r.n) && addr == next.addr
        case HasDesc(buf) => buf == next)
  }

  ghost predicate PutterAt(s: State) {
    && s.r.usedIdx == Count16(s.given) && s.given <= |s.taken|
    && (s.putter.Passed? ==> s.putter.head == s.r.usedIdx && s.given < |s.taken|)
  }

  ghost predicate InOrder(l: Layout, s: State) {
    s.Valid() && s.taken <= s.posted && s.misses == 0 && Offers(s.r, s.posted[|s.taken|..], l, |s.taken|)
  }

  ghost predicate Inv(l: Layout, s: State) {
    InOrder(l, s) && DriverAt(l, s) && GetterAt(s) && PutterAt(s)
  }

  lemma OfferedCounters(r: Ring, waiting: seq<Buf>, l: Layout, taken: nat)
    requires Offers(r, waiting, l, taken)
    ensures r.Valid() && |waiting| <= r.n && r.availIdx == Count16(taken + |waiting|) && r.tail == Count16(taken)
    ensures r.availIdx == r.tail <==> waiting == []
    ensures waiting != [] ==> SlotHolds(r, Mod(taken, r.n), waiting[0], l)
  {
    CountsDiffer(taken, |waiting|);
    assert waiting != [] ==> SlotHolds(r, Mod(taken + 0, r.n), waiting[0], l);
  }

  lemma DriverStepKeeps(l: Layout, s: State, e: Event)
    requires Inv(l, s) && Mod(U16, s.r.n) == 0 && Enabled(l, s, e)
    requires e.WriteAddr? || e.WriteLen? || e.WriteSlot?
    ensures Inv(l, DriverStep(l, s, e))
  {
    hide Offers, Oob;
    assert Offers(s.r, s.posted[|s.taken|..], l, |s.taken|);
    var waiting, s' := s.posted[|s.taken|..], DriverStep(l, s, e);
    var slot := Mod(|s.posted|, s.r.n);
    OfferedCounters(s.r, waiting, l, |s.taken|);
    SlotOfCounter(|s.posted|, s.r.n);
    WriteKeeps(s.r, waiting, l, |s.taken|, s'.r.descs[slot], s'.r.ring[slot]);
  }

  lemma PublishStepKeeps(l: Layout, s: State)
    requires Inv(l, s) && Enabled(l, s, Publish)
    ensures Inv(l, DriverStep(l, s, Publish))
  {
    hide Offers, Oob;
    assert Offers(s.r, s.posted[|s.taken|..], l, |s.taken|);
    var waiting, s' := s.posted[|s.taken|..], DriverStep(l, s, Publish);
    assert SlotHolds(s.r, Mod(|s.taken| + |waiting|, s.r.n), s.driver.buf, l);
    PublishKeeps(s.r, waiting, l, |s.taken|, s.driver.buf);
    assert s'.posted[|s'.taken|..] == waiting + [s.driver.buf];
  }

  lemma LoadKeeps(l: Layout, s: State, e: Event)
    requires Inv(l, s) && Mod(U16, s.r.n) == 0 && Enabled(l, s, e)
    requires e.LoadIndex? || e.LoadSlot? || e.LoadAddr? || e.LoadLen?
    ensures Inv(l, DeviceStep(l, s, e))
  {
    hide Offers, Oob;
    OfferedCounters(s.r, s.posted[|s.taken|..], l, |s.taken|);
    SlotOfCounter(|s.taken|, s.r.n);
  }

  lemma AdvanceStepKeeps(l: Layout, s: State)
    requires Inv(l, s) && Enabled(l, s, Advance)
    ensures Inv(l, DeviceStep(l, s, Advance))
  {
    hide Offers, Oob;
    var waiting, s' := s.posted[|s.taken|..], DeviceStep(l, s, Advance);
    OfferedCounters(s.r, waiting, l, |s.taken|);
    AdvanceKeeps(s.r, waiting, l, |s.taken|);
    assert s'.posted[|s'.taken|..] == waiting[1..];
  }

  lemma PutStepKeeps(l: Layout, s: State, e: Event)
    requires Inv(l, s) && Enabled(l, s, e) && (e.CheckUsed? || e.StoreUsed?)
    ensures Inv(l, DeviceStep(l, s, e))
  {
    hide Oob;
    var waiting, s' := s.posted[|s.taken|..], DeviceStep(l, s, e);
    CountNext(s.given);
    forall k | 0 <= k < |waiting|
      ensures SlotHolds(s'.r, Mod(|s.taken| + k, s.r.n), waiting[k], l)
    {
      assert SlotHolds(s.r, Mod(|s.taken| + k, s.r.n), waiting[k], l);
    }
  }

  lemma StepKeepsInv(l: Layout, s: State, e: Event)
    requires Inv(l, s) && Mod(U16, s.r.n) == 0 && Enabled(l, s, e)
    ensures Inv(l, Step(l, s, e))
  {
    hide Inv, DriverStep, DeviceStep;
    match e
    case WriteAddr(_) => DriverStepKeeps(l, s, e);
    case WriteLen => DriverStepKeeps(l, s, e);
    case WriteSlot => DriverStepKeeps(l, s, e);
    case Publish => PublishStepKeeps(l, s);
    case LoadIndex => LoadKeeps(l, s, e);
    case LoadSlot => LoadKeeps(l, s, e);
    case LoadAddr => LoadKeeps(l, s, e);
    case LoadLen => LoadKeeps(l, s, e);
    case Advance => AdvanceStepKeeps(l, s);
    case CheckUsed => PutStepKeeps(l, s, e);
    case StoreUsed => PutStepKeeps(l, s, e);
  }

  lemma {:induction false} RunKeepsInv(l: Layout, s: State, es: seq<Event>)
    requires Inv(l, s) && Mod(U16, s.r.n) == 0 && IsRun(l, s, es)
    ensures Inv(l, After(l, s, es))
    decreases |es|
  {
    hide Step, Enabled;
    if es != [] {
      StepKeepsInv(l, s, es[0]);
      RunKeepsInv(l, Step(l, s, es[0]), es[1..]);
    }
  }

  // ------------------------------------------------------------ the main results

  lemma InvSays(l: Layout, s: State)
    requires Inv(l, s)
    ensures s.taken <= s.posted && |s.posted| <= |s.taken| + s.r.n && s.misses == 0
    ensures s.r.availIdx == s.r.tail <==> s.taken == s.posted
    ensures s.given <= |s.taken| && (UsedFull(s.r) <==> Count16(|s.taken| - s.given) == 0)
  {
    hide Offers;
    OfferedCounters(s.r, s.posted[|s.taken|..], l, |s.taken|);
    CountsAgree(s.given, |s.taken| - s.given);
    assert |s.taken| == |s.posted| ==> s.taken == s.posted;
  }

  /** For sizes dividing 65536, at every point of every interleaving, through any number of counter wraps:
      the buffers taken are the first ones published, in order; `get_buf` has never seen a buffer and
      returned none; the index it would load next tells exactly whether one is left; and no more were
      given back than taken, the check of `put_buf` telling whether the number held is a multiple of
      65536. */
  lemma EveryInterleaving(n: nat, l: Layout, es: seq<Event>)
    requires 0 < n < 32768 && Mod(U16, n) == 0 && IsRun(l, Start(n), es)
    ensures var s := After(l, Start(n), es);
            && s.taken <= s.posted && |s.posted| <= |s.taken| + n && s.misses == 0
            && (s.r.availIdx == s.r.tail <==> s.taken == s.posted)
            && s.given <= |s.taken| && (UsedFull(s.r) <==> Count16(|s.taken| - s.given) == 0)
  {
    RunKeepsInv(l, Start(n), es);
    var s := After(l, Start(n), es);
    hide Inv, IsRun, After, Offers;
    InvSays(l, s);
  }

  // -------------------------------------------------- calls that are not interrupted

  const TAKE: seq<Event> := [LoadIndex, LoadSlot, LoadAddr, LoadLen, Advance]

  function PostSteps(buf: Buf): seq<Event> {
    [WriteAddr(buf), WriteLen, WriteSlot, Publish]
  }

  lemma {:induction false} RunConcat(l: Layout, s: State, a: seq<Event>, b: seq<Event>)
    requires s.Valid() && IsRun(l, s, a) && IsRun(l, After(l, s, a), b)
    ensures IsRun(l, s, a + b) && After(l, s, a + b) == After(l, After(l, s, a), b)
    decreases |a|
  {
    hide Step, Enabled;
    if a == [] {
      assert a + b == b;
    } else {
      RunConcat(l, Step(l, s, a[0]), a[1..], b);
      assert (a + b)[1..] == a[1..] + b;
    }
  }

  lemma Prepend(l: Layout, s: State, e: Event, es: seq<Event>)
    requires s.Valid() && Enabled(l, s, e) && IsRun(l, Step(l, s, e), es)
    ensures IsRun(l, s, [e] + es) && After(l, s, [e] + es) == After(l, Step(l, s, e), es)
  {
    assert ([e] + es)[1..] == es;
  }

  ghost predicate Leads(l: Layout, s: State, e: Event, s': State) {
    s.Valid() && Enabled(l, s, e) && s' == Step(l, s, e)
  }

  lemma FourSteps(l: Layout, s: State, s1: State, s2: State, s3: State, s4: State,
                  e1: Event, e2: Event, e3: Event, e4: Event)
    requires Leads(l, s, e1, s1) && Leads(l, s1, e2, s2) && Leads(l, s2, e3, s3) && Leads(l, s3, e4, s4)
    ensures IsRun(l, s, [e1, e2, e3, e4]) && After(l, s, [e1, e2, e3, e4]) == s4
  {
    hide Enabled, Step;
    assert IsRun(l, s4, []) && After(l, s4, []) == s4;
    hide IsRun, After;
    Prepend(l, s3, e4, []);
    Prepend(l, s2, e3, [e4]);
    Prepend(l, s1, e2, [e3, e4]);
    Prepend(l, s, e1, [e2, e3, e4]);
    assert [e4] == [e4] + [] && [e3, e4] == [e3] + [e4] && [e2, e3, e4] == [e2] + [e3, e4];
    assert [e1, e2, e3, e4] == [e1] + [e2, e3, e4];
  }

  /** The stores of one `add_buf` without the device in between are the atomic post. */
  lemma PostBlock(l: Layout, s: State, buf: Buf)
    requires s.Valid() && Enabled(l, s, WriteAddr(buf))
    ensures IsRun(l, s, PostSteps(buf))
    ensures After(l, s, PostSteps(buf)) == s.(r := AddBuf(s.r, buf), posted := s.posted + [buf])
  {
    hide Oob;
    var s1 := Step(l, s, WriteAddr(buf));
    var s2 := Step(l, s1, WriteLen);
    var s3 := Step(l, s2, WriteSlot);
    var s4 := Step(l, s3, Publish);
    assert s4.r == AddBuf(s.r, buf);
    hide IsRun, After, Enabled, Step;
    FourSteps(l, s, s1, s2, s3, s4, WriteAddr(buf), WriteLen, WriteSlot, Publish);
  }

  /** The loads of one `get_buf` without the driver in between are the atomic take, wherever the driver
      has been stopped. */
  lemma TakeBlock(l: Layout, s: State)
    requires s.Valid() && s.getter.Waiting? && NextBuf(l, s.r).Some?
    ensures IsRun(l, s, TAKE)
    ensures After(l, s, TAKE) == s.(r := GetBuf(l, s.r), taken := s.taken + [NextBuf(l, s.r).value])
  {
    hide Oob;
    var s1 := Step(l, s, LoadIndex);
    var s2 := Step(l, s1, LoadSlot);
    var s3 := Step(l, s2, LoadAddr);
    var s4 := Step(l, s3, LoadLen);
    var s5 := Step(l, s4, Advance);
    assert s4.getter.buf == NextBuf(l, s.r).value;
    hide IsRun, After, Enabled, Step;
    FourSteps(l, s1, s2, s3, s4, s5, LoadSlot, LoadAddr, LoadLen, Advance);
    Prepend(l, s, LoadIndex, [LoadSlot, LoadAddr, LoadLen, Advance]);
    assert TAKE == [LoadIndex] + [LoadSlot, LoadAddr, LoadLen, Advance];
  }

  /** For sizes dividing 65536: whatever the driver is in the middle of, a `get_buf` that then runs alone
      takes the oldest buffer not taken. */
  lemma NextTakeIsOldest(n: nat, l: Layout, es: seq<Event>)
    requires 0 < n < 32768 && Mod(U16, n) == 0 && IsRun(l, Start(n), es)
    requires var s := After(l, Start(n), es); s.getter.Waiting? && s.taken != s.posted
    ensures IsRun(l, Start(n), es + TAKE)
    ensures var s := After(l, Start(n), es);
            |s.taken| < |s.posted| &&
            After(l, Start(n), es + TAKE).taken == s.taken + [s.posted[|s.taken|]]
  {
    RunKeepsInv(l, Start(n), es);
    var s := After(l, Start(n), es);
    hide IsRun, After, Offers, Oob;
    InvSays(l, s);
    OfferedCounters(s.r, s.posted[|s.taken|..], l, |s.taken|);
    SlotOfCounter(|s.taken|, n);
    assert NextBuf(l, s.r) == Some(s.posted[|s.taken|]);
    TakeBlock(l, s);
    RunConcat(l, Start(n), es, TAKE);
  }

  // ---------------------------------------------------------- other sizes do not

  /** In every interleaving the buffers are taken in the order in which they were published. */
  ghost predicate InterleavesInOrder(n: nat, l: Layout)
    requires 0 < n < 32768
  {
    forall es :: IsRun(l, Start(n), es) ==> After(l, Start(n), es).taken <= After(l, Start(n), es).posted
  }

  function Copies(buf: Buf, k: nat): (bufs: seq<Buf>)
    ensures |bufs| == k && forall i :: 0 <= i < k ==> bufs[i] == buf
  {
    seq(k, _ => buf)
  }

  lemma CopiesNext(bufs: seq<Buf>, buf: Buf, k: nat)
    requires k > 0
    ensures bufs + [buf] + Copies(buf, k - 1) == bufs + Copies(buf, k)
  {
    assert [buf] + Copies(buf, k - 1) == Copies(buf, k);
  }

  function RoundSteps(buf: Buf, k: nat): seq<Event> {
    if k == 0 then [] else PostSteps(buf) + TAKE + RoundSteps(buf, k - 1)
  }

  function PileSteps(buf: Buf, k: nat): seq<Event> {
    if k == 0 then [] else PostSteps(buf) + PileSteps(buf, k - 1)
  }

  lemma RoundRun(l: Layout, s: State, buf: Buf)
    requires s.Valid() && s.r.availIdx == s.r.tail && s.driver.Idle? && s.getter.Waiting?
    requires |s.posted| == |s.taken| && !Oob(l.mem, buf.addr, buf.len)
    ensures IsRun(l, s, PostSteps(buf) + TAKE)
    ensures After(l, s, PostSteps(buf) + TAKE) ==
            s.(r := AfterOps(l, s.r, Round(buf)), posted := s.posted + [buf], taken := s.taken + [buf])
    ensures AfterOps(l, s.r, Round(buf)).availIdx == AfterOps(l, s.r, Round(buf)).tail
  {
    hide Oob;
    OneRound(s.r.n, l, s.r, buf, 0);
    PostBlock(l, s, buf);
    var s1 := After(l, s, PostSteps(buf));
    assert NextBuf(l, s1.r) == Some(buf);
    TakeBlock(l, s1);
    AfterConcat(l, s.r, [Post(buf)], [Take]);
    assert Round(buf) == [Post(buf)] + [Take];
    hide IsRun, After;
    RunConcat(l, s, PostSteps(buf), TAKE);
  }

  lemma {:induction false} RoundsRun(l: Layout, s: State, buf: Buf, k: nat)
    requires s.Valid() && s.r.availIdx == s.r.tail && s.driver.Idle? && s.getter.Waiting?
    requires |s.posted| == |s.taken| && !Oob(l.mem, buf.addr, buf.len)
    ensures IsRun(l, s, RoundSteps(buf, k))
    ensures After(l, s, RoundSteps(buf, k)) ==
            s.(r := AfterOps(l, s.r, Rounds(buf, k)),
               posted := s.posted + Copies(buf, k), taken := s.taken + Copies(buf, k))
    decreases k
  {
    if k == 0 {
      assert s.posted + [] == s.posted && s.taken + [] == s.taken;
    } else {
      hide IsRun, After, AfterOps, NextBuf, Oob, PostSteps, Round, Copies, Step, Enabled;
      RoundRun(l, s, buf);
      var s1 := After(l, s, PostSteps(buf) + TAKE);
      RoundsRun(l, s1, buf, k - 1);
      RunConcat(l, s, PostSteps(buf) + TAKE, RoundSteps(buf, k - 1));
      AfterConcat(l, s.r, Round(buf), Rounds(buf, k - 1));
      CopiesNext(s.posted, buf, k);
      CopiesNext(s.taken, buf, k);
    }
  }

  lemma {:induction false} PileRun(l: Layout, s: State, buf: Buf, k: nat)
    requires s.Valid() && s.driver.Idle?
    requires |s.posted| + k <= |s.taken| + s.r.n && !Oob(l.mem, buf.addr, buf.len)
    ensures IsRun(l, s, PileSteps(buf, k))
    ensures After(l, s, PileSteps(buf, k)) ==
            s.(r := AfterOps(l, s.r, Repeated(buf, k)), posted := s.posted + Copies(buf, k))
    decreases k
  {
    if k == 0 {
      assert s.posted + [] == s.posted;
    } else {
      hide IsRun, After, NextBuf, PostSteps, Copies, Step;
      PostBlock(l, s, buf);
      var s1 := After(l, s, PostSteps(buf));
      PileRun(l, s1, buf, k - 1);
      RunConcat(l, s, PostSteps(buf), PileSteps(buf, k - 1));
      assert Repeated(buf, k)[1..] == Repeated(buf, k - 1);
      CopiesNext(s.posted, buf, k);
    }
  }

  lemma OvertakingRun(n: nat, l: Layout, first: Buf, last: Buf, excess: nat) returns (es: seq<Event>)
    requires 0 < excess < n < 32768 && Mod(U16, n) == excess
    requires !Oob(l.mem, first.addr, first.len) && !Oob(l.mem, last.addr, last.len)
    ensures IsRun(l, Start(n), es)
    ensures After(l, Start(n), es).taken == Copies(first, U16 - excess) + [last]
    ensures After(l, Start(n), es).posted == Copies(first, U16) + [last]
  {
    hide IsRun, After, AfterOps;
    var rounds, pile := Rounds(first, U16 - excess), Repeated(first, excess);
    RoundsRun(l, Start(n), first, U16 - excess);
    var s1 := After(l, Start(n), RoundSteps(first, U16 - excess));
    PileRun(l, s1, first, excess);
    var s2 := After(l, s1, PileSteps(first, excess));
    PostBlock(l, s2, last);
    var s3 := After(l, s2, PostSteps(last));
    AfterConcat(l, Blank(n), rounds, pile);
    AfterSnoc(l, Blank(n), rounds + pile, Post(last));
    BrokenRing(n, l, first, last, excess);
    assert NextBuf(l, s3.r) == Some(last);
    TakeBlock(l, s3);
    es := RoundSteps(first, U16 - excess) + PileSteps(first, excess);
    RunConcat(l, Start(n), RoundSteps(first, U16 - excess), PileSteps(first, excess));
    RunConcat(l, Start(n), es, PostSteps(last));
    RunConcat(l, Start(n), es + PostSteps(last), TAKE);
    es := es + PostSteps(last) + TAKE;
    assert Copies(first, U16 - excess) + Copies(first, excess) == Copies(first, U16);
  }

  /** If the size does not divide 65536, not even the calls that are not interrupted take in order. */
  lemma OtherSizesInterleave(n: nat, l: Layout)
    requires 0 < n < 32768 && Mod(U16, n) != 0 && l.mem.Valid()
    ensures !InterleavesInOrder(n, l)
  {
    var excess := Mod(U16, n);
    var first, last := Buf(l.mem.start, 0), Buf(l.mem.start, 1);
    OobIsExact(l.mem, l.mem.start, 0);
    OobIsExact(l.mem, l.mem.start, 1);
    hide Oob;
    var es := OvertakingRun(n, l, first, last, excess);
    var s := After(l, Start(n), es);
    assert s.taken[U16 - excess] != s.posted[U16 - excess];
  }

  /** Every interleaving of the stores of `add_buf` with the loads of `get_buf` takes the buffers in order
      exactly if the size divides 65536. */
  lemma InterleavesIffSizeDivides(n: nat, l: Layout)
    requires 0 < n < 32768 && l.mem.Valid()
    ensures InterleavesInOrder(n, l) <==> U16 % n == 0
  {
    ModIsRemainder(U16, n);
    if Mod(U16, n) == 0 {
      forall es | IsRun(l, Start(n), es)
        ensures After(l, Start(n), es).taken <= After(l, Start(n), es).posted
      {
        EveryInterleaving(n, l, es);
      }
    } else {
      OtherSizesInterleave(n, l);
    }
  }
}
