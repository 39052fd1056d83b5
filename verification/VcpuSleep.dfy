/** Halting, waking and shutting down the vCPUs: every interleaving of the vCPU threads. A thread that
    halts scans all vCPU states one by one without a lock, and either shuts down or goes to sleep. */
module VcpuSleep {
  import opened Words
  import opened Vcpus

  /** Where the thread of a vCPU is. A scan remembers whether vcpuThread or a HLT exit began it:
      vcpuThread ignores what waitForSipi returns. */
  datatype Thread =
    | Fresh                                              // created, state not yet initialised
    | Starting                                           // about to run vcpuThread
    | Active                                             // in hvRunVcpu
    | Waking(target: nat)                                // checked target's state, about to mark it running
    | Scanning(next: nat, allHalted: bool, boot: bool)   // the loop of waitForSipi
    | Asleep                                             // waiting on the condition variable
    | Exited

  datatype State = State(marks: seq<Mark>, threads: seq<Thread>)

  datatype Event =
    | Create
    | Init(t: nat)
    | Begin(t: nat)
    | Halt(t: nat)
    | ScanNext(t: nat)
    | ScanEnd(t: nat)
    | Resume(t: nat)
    | Sipi(t: nat, vector: Word)
    | Irq(t: nat, dest: nat)
    | Wake(t: nat)
    | Stop(t: nat)

  predicate Enabled(s: State, e: Event) {
    && |s.marks| == |s.threads|
    && (e.Create? ||
        (e.t < |s.threads| &&
         var at := s.threads[e.t];
         match e
         case Create => true
         case Init(_) => at.Fresh?
         case Begin(_) => at.Starting?
         case Halt(_) => at.Active?
         case ScanNext(_) => at.Scanning? && at.next < |s.marks|
         case ScanEnd(_) => at.Scanning? && at.next == |s.marks|
         case Resume(t) => at.Asleep? && s.marks[t].Running?
         case Sipi(_, _) => at.Active?
         case Irq(_, _) => at.Active?
         case Wake(_) => at.Waking? && at.target < |s.marks|
         case Stop(_) => at.Active?))
  }

  function At(s: State, t: nat, thread: Thread): State
    requires t < |s.threads|
  {
    s.(threads := s.threads[t := thread])
  }

  function Step(s: State, e: Event): State
    requires Enabled(s, e)
  {
    match e
    case Create => State(s.marks + [NotStarted], s.threads + [Fresh])
    case Init(t) => At(s.(marks := s.marks[t := NotStarted]), t, Starting)
    case Begin(t) => At(s, t, if s.marks[t].NotStarted? then Scanning(0, true, true) else Active)
    case Halt(t) => At(s.(marks := s.marks[t := Halted]), t, Scanning(0, true, false))
    case ScanNext(t) =>
      var at := s.threads[t];
      At(s, t, Scanning(at.next + 1, at.allHalted && !s.marks[at.next].Running?, at.boot))
    case ScanEnd(t) =>
      var at := s.threads[t];
      At(s, t, if !at.allHalted then Asleep else if at.boot then Active else Exited)
    case Resume(t) => At(s, t, Active)
    case Sipi(t, vector) =>
      var target := SipiTarget(s.marks, vector);
      if target.Some? then At(s, t, Waking(target.value)) else s
    case Irq(t, dest) => if dest < |s.marks| && s.marks[dest].Halted? then At(s, t, Waking(dest)) else s
    case Wake(t) => At(s.(marks := s.marks[s.threads[t].target := Running]), t, Active)
    case Stop(t) => At(s, t, Exited)
  }

  predicate IsRun(s: State, es: seq<Event>)
    decreases |es|
  {
    es == [] || (Enabled(s, es[0]) && IsRun(Step(s, es[0]), es[1..]))
  }

  function After(s: State, es: seq<Event>): State
    requires IsRun(s, es)
    decreases |es|
  {
    if es == [] then s else After(Step(s, es[0]), es[1..])
  }

  /** Only the bootstrap processor exists, and it is marked running before its thread starts. */
  const BOOT := State([Running], [Starting])

  /** A start-up request, checked and then carried out: the addressed vCPU, if it exists, is marked running,
      whatever it was; no other mark changes. */
  lemma SipiMarks(s: State, t: nat, vector: Word)
    requires Enabled(s, Sipi(t, vector))
    ensures var s1 := Step(s, Sipi(t, vector));
            var s2 := if s1 == s then s else Step(s1, Wake(t));
            && (s1 != s ==> Enabled(s1, Wake(t))) && s2.threads == s.threads
            && s2.marks == if vector % 4 < |s.marks| then s.marks[vector % 4 := Running] else s.marks
  {
    var s1 := Step(s, Sipi(t, vector));
    if s1 != s {
      assert Step(s1, Wake(t)).threads == s.threads;
    } else if vector % 4 < |s.marks| {
      assert s.threads[t] != Waking(vector % 4);
      assert s.marks[vector % 4 := Running] == s.marks;
    }
  }

  // ------------------------------------------------------------- no global sleep

  predicate SomeRunning(s: State) {
    exists j :: 0 <= j < |s.marks| && s.marks[j].Running?
  }

  /** A thread that is not waiting for anyone, or whose scan has not seen a running vCPU. */
  predicate Alert(at: Thread) {
    !at.Asleep? && (at.Scanning? ==> at.allHalted)
  }

  predicate SomeAlert(s: State) {
    exists t :: 0 <= t < |s.threads| && Alert(s.threads[t])
  }

  ghost predicate Inv(s: State) {
    && |s.marks| == |s.threads|
    && (forall t :: 0 <= t < |s.threads| && s.threads[t].Waking? ==> s.threads[t].target < |s.marks|)
    && (SomeRunning(s) || SomeAlert(s))
  }

  lemma StaysRunning(s: State, s': State, e: Event)
    requires Enabled(s, e) && s' == Step(s, e) && SomeRunning(s) && !e.Halt? && !e.Init?
    ensures SomeRunning(s')
  {
    var j :| 0 <= j < |s.marks| && s.marks[j].Running?;
    assert s'.marks[j].Running?;
  }

  lemma StaysAlert(s: State, s': State, e: Event)
    requires Enabled(s, e) && s' == Step(s, e) && SomeAlert(s) && !SomeRunning(s)
    ensures SomeAlert(s')
  {
    var t :| 0 <= t < |s.threads| && Alert(s.threads[t]);
    assert Alert(s'.threads[t]) by {
      if e.ScanNext? && e.t == t {
        assert !s.marks[s.threads[t].next].Running?;
      }
    }
  }

  /** The last running mark disappears only through a thread that then scans with a clean flag. */
  lemma StepKeepsInv(s: State, e: Event)
    requires Inv(s) && Enabled(s, e)
    ensures Inv(Step(s, e))
  {
    var s' := Step(s, e);
    if e.Halt? || e.Init? {
      assert Alert(s'.threads[e.t]);
    } else if SomeRunning(s) {
      StaysRunning(s, s', e);
    } else {
      StaysAlert(s, s', e);
    }
  }

  lemma {:induction false} RunKeepsInv(s: State, es: seq<Event>)
    requires Inv(s) && IsRun(s, es)
    ensures Inv(After(s, es))
    decreases |es|
  {
    if es != [] {
      StepKeepsInv(s, es[0]);
      RunKeepsInv(Step(s, es[0]), es[1..]);
    }
  }

  /** Some step of thread t is possible. */
  predicate CanStep(s: State, t: nat) {
    || Enabled(s, Init(t)) || Enabled(s, Begin(t)) || Enabled(s, Halt(t))
    || Enabled(s, ScanNext(t)) || Enabled(s, ScanEnd(t)) || Enabled(s, Resume(t)) || Enabled(s, Wake(t))
  }

  ghost predicate ScansInRange(s: State) {
    forall t :: 0 <= t < |s.threads| && s.threads[t].Scanning? ==> s.threads[t].next <= |s.marks|
  }

  lemma {:induction false} RunKeepsScansInRange(s: State, es: seq<Event>)
    requires ScansInRange(s) && IsRun(s, es)
    ensures ScansInRange(After(s, es))
    decreases |es|
  {
    if es != [] {
      RunKeepsScansInRange(Step(s, es[0]), es[1..]);
    }
  }

  /** Never does every vCPU's thread sleep while no vCPU is marked running; so, whatever happened
      before, either some thread has shut down or some thread can take a step. */
  lemma NoGlobalSleep(es: seq<Event>)
    requires IsRun(BOOT, es)
    ensures var s := After(BOOT, es);
            && ((forall t :: 0 <= t < |s.threads| ==> s.threads[t].Asleep?) ==> SomeRunning(s))
            && (exists t :: 0 <= t < |s.threads| && (s.threads[t].Exited? || CanStep(s, t)))
  {
    assert BOOT.marks[0].Running?;
    RunKeepsInv(BOOT, es);
    RunKeepsScansInRange(BOOT, es);
    var s := After(BOOT, es);
    if SomeAlert(s) {
      var t :| 0 <= t < |s.threads| && Alert(s.threads[t]);
      assert s.threads[t].Exited? || CanStep(s, t);
    } else {
      var j :| 0 <= j < |s.marks| && s.marks[j].Running?;
      assert CanStep(s, j);
    }
  }

  // ------------------------------------------------- what the unlocked scan knows

  predicate Passed(at: Thread, j: nat) {
    at.Scanning? && at.allHalted && j < at.next
  }

  /** Every scan whose flag is still set has passed only vCPUs that are not running now. */
  ghost predicate ScansExact(s: State) {
    forall t, j :: 0 <= t < |s.threads| && 0 <= j < |s.marks| && Passed(s.threads[t], j) ==> !s.marks[j].Running?
  }

  /** The waking of a vCPU that a scan with a set flag has already passed. */
  ghost predicate WakesBehindScan(s: State, e: Event)
    requires Enabled(s, e)
  {
    && e.Wake?
    && exists t :: 0 <= t < |s.threads| && Passed(s.threads[t], s.threads[e.t].target)
  }

  /** The scan takes no lock, so its verdict can be overtaken: by this step, and by no other. */
  lemma ScanExactIff(s: State, e: Event)
    requires ScansExact(s) && Enabled(s, e)
    ensures ScansExact(Step(s, e)) <==> !WakesBehindScan(s, e)
  {
    var s' := Step(s, e);
    if WakesBehindScan(s, e) {
      var t :| 0 <= t < |s.threads| && Passed(s.threads[t], s.threads[e.t].target);
      assert s'.threads[t] == s.threads[t] && s'.marks[s.threads[e.t].target].Running?;
    } else {
      forall t, j | 0 <= t < |s'.threads| && 0 <= j < |s'.marks| && Passed(s'.threads[t], j)
        ensures !s'.marks[j].Running?
      {
        if !e.Create? && !(e.ScanNext? && e.t == t) {
          assert s'.threads[t] == s.threads[t];
        }
      }
    }
  }

  /** The vCPUs that were woken after thread t's present scan passed them, and have not halted since. */
  function WokenBehind(s: State, es: seq<Event>, t: nat, woken: set<nat>): set<nat>
    requires IsRun(s, es)
    decreases |es|
  {
    if es == [] then woken
    else WokenBehind(Step(s, es[0]), es[1..], t, Woken(s, es[0], t, woken))
  }

  /** How one step changes that set. */
  function Woken(s: State, e: Event, t: nat, woken: set<nat>): set<nat>
    requires Enabled(s, e)
  {
    if (e.Begin? || e.Halt?) && e.t == t then {}
    else if e.Halt? || e.Init? then woken - {e.t}
    else if e.Wake? && t < |s.threads| && Passed(s.threads[t], s.threads[e.t].target)
    then woken + {s.threads[e.t].target}
    else woken
  }

  /** A scan whose flag is still set has passed exactly these running vCPUs. */
  ghost predicate Overtakes(s: State, t: nat, woken: set<nat>) {
    t < |s.threads| && s.threads[t].Scanning? && s.threads[t].allHalted ==>
      && (forall j :: j in woken ==> j < s.threads[t].next && j < |s.marks|)
      && (forall j :: 0 <= j < |s.marks| && j < s.threads[t].next ==> (s.marks[j].Running? <==> j in woken))
  }

  lemma {:induction false} RunOvertakes(s: State, es: seq<Event>, t: nat, woken: set<nat>)
    requires IsRun(s, es) && Overtakes(s, t, woken)
    ensures Overtakes(After(s, es), t, WokenBehind(s, es, t, woken))
    decreases |es|
  {
    if es != [] {
      StepOvertakes(s, es[0], t, woken);
      RunOvertakes(Step(s, es[0]), es[1..], t, Woken(s, es[0], t, woken));
    }
  }

  lemma StepOvertakes(s: State, e: Event, t: nat, woken: set<nat>)
    requires Enabled(s, e) && Overtakes(s, t, woken)
    ensures Overtakes(Step(s, e), t, Woken(s, e, t, woken))
  {
  }

  /** When a scan ends with the verdict that all vCPUs are halted, the verdict is wrong if and only if
      some vCPU was woken behind the scan and has not halted since. */
  lemma VerdictWrongIff(es: seq<Event>, t: nat)
    requires IsRun(BOOT, es)
    requires var s := After(BOOT, es);
             t < |s.threads| && s.threads[t].Scanning? && s.threads[t].allHalted && s.threads[t].next == |s.marks|
    ensures SomeRunning(After(BOOT, es)) <==> WokenBehind(BOOT, es, t, {}) != {}
  {
    RunOvertakes(BOOT, es, t, {});
    var s := After(BOOT, es);
    if SomeRunning(s) {
      var j :| 0 <= j < |s.marks| && s.marks[j].Running?;
      assert j in WokenBehind(BOOT, es, t, {});
    }
  }

  ghost predicate NoneWokenBehind(s: State, es: seq<Event>)
    requires IsRun(s, es)
    decreases |es|
  {
    es == [] || (!WakesBehindScan(s, es[0]) && NoneWokenBehind(Step(s, es[0]), es[1..]))
  }

  lemma {:induction false} RunKeepsScansExact(s: State, es: seq<Event>)
    requires IsRun(s, es) && ScansExact(s) && NoneWokenBehind(s, es)
    ensures ScansExact(After(s, es))
    decreases |es|
  {
    hide ScansExact, WakesBehindScan, Step;
    if es != [] {
      ScanExactIff(s, es[0]);
      RunKeepsScansExact(Step(s, es[0]), es[1..]);
    }
  }

  /** In a run in which no vCPU is woken behind a scan, a thread shuts down after a scan only when no vCPU
      is running. */
  lemma ShutdownSound(es: seq<Event>, t: nat)
    requires IsRun(BOOT, es) && NoneWokenBehind(BOOT, es)
    requires Enabled(After(BOOT, es), ScanEnd(t)) && Step(After(BOOT, es), ScanEnd(t)).threads[t].Exited?
    ensures !SomeRunning(After(BOOT, es))
  {
    RunKeepsScansExact(BOOT, es);
    var s := After(BOOT, es);
    forall j | 0 <= j < |s.marks|
      ensures !s.marks[j].Running?
    {
      assert Passed(s.threads[t], j);
    }
  }

  ghost predicate Reachable(s: State) {
    exists es :: IsRun(BOOT, es) && After(BOOT, es) == s
  }

  lemma {:induction false} RunExtends(s: State, es: seq<Event>, e: Event)
    requires IsRun(s, es) && Enabled(After(s, es), e)
    ensures IsRun(s, es + [e]) && After(s, es + [e]) == Step(After(s, es), e)
    decreases |es|
  {
    if es == [] {
      assert es + [e] == [e];
    } else {
      assert (es + [e])[1..] == es[1..] + [e];
      RunExtends(Step(s, es[0]), es[1..], e);
    }
  }

  lemma Reach(s: State, e: Event, s': State)
    requires Reachable(s) && Enabled(s, e) && Step(s, e) == s'
    ensures Reachable(s')
  {
    var es :| IsRun(BOOT, es) && After(BOOT, es) == s;
    RunExtends(BOOT, es, e);
  }

  /** vCPU 0 halts; vCPU 1 begins to run because its own first scan finds nobody running. */
  lemma RunsUnmarked()
    ensures Reachable(State([Halted, NotStarted], [Scanning(0, true, false), Active]))
  {
    var s1 := State([Running, NotStarted], [Starting, Fresh]);
    var s4 := State([Halted, NotStarted], [Scanning(0, true, false), Starting]);
    assert Reachable(BOOT) by { assert IsRun(BOOT, []) && After(BOOT, []) == BOOT; }
    hide Reachable;
    Reach(BOOT, Create, s1);
    Reach(s1, Init(1), s1.(threads := [Starting, Starting]));
    Reach(s1.(threads := [Starting, Starting]), Begin(0), s1.(threads := [Active, Starting]));
    Reach(s1.(threads := [Active, Starting]), Halt(0), s4);
    BootScanPasses(s4);
  }

  lemma BootScanPasses(s: State)
    requires Reachable(s) && s.marks == [Halted, NotStarted] && |s.threads| == 2 && s.threads[1] == Starting
    ensures Reachable(At(s, 1, Active))
  {
    hide Reachable;
    Reach(s, Begin(1), At(s, 1, Scanning(0, true, true)));
    Reach(At(s, 1, Scanning(0, true, true)), ScanNext(1), At(s, 1, Scanning(1, true, true)));
    Reach(At(s, 1, Scanning(1, true, true)), ScanNext(1), At(s, 1, Scanning(2, true, true)));
    Reach(At(s, 1, Scanning(2, true, true)), ScanEnd(1), At(s, 1, Active));
  }

  /** The lock that waitForSipi's comment speaks of is not taken: a scan of all vCPUs can end with the
      verdict that all are halted, which shuts its thread down, while a vCPU is running. */
  lemma ShutdownOvertaken()
    ensures var s := State([Halted, Running], [Scanning(2, true, false), Active]);
            Reachable(s) && SomeRunning(s) && Enabled(s, ScanEnd(0)) && Step(s, ScanEnd(0)).threads[0] == Exited
  {
    RunsUnmarked();
    hide Reachable;
    var idle := [Halted, NotStarted];
    var s2 := State(idle, [Scanning(2, true, false), Active]);
    var s3 := State(idle, [Scanning(2, true, false), Waking(1)]);
    var s4 := State([Halted, Running], [Scanning(2, true, false), Active]);
    Reach(State(idle, [Scanning(0, true, false), Active]), ScanNext(0),
          State(idle, [Scanning(1, true, false), Active]));
    Reach(State(idle, [Scanning(1, true, false), Active]), ScanNext(0), s2);
    Reach(s2, Sipi(1, 1), s3);
    Reach(s3, Wake(1), s4);
    assert s4.marks[1].Running?;
  }
}
