/** Whole runs of malloc and free. */
module HeapRuns {
  import opened Words
  import opened HeapBlocks

  /** `live` records what the callers hold: each pointer that was returned and not yet freed, with the
      number of bytes that were asked for. */
  datatype State = State(base: nat, heap: nat, cells: seq<Cell>, live: map<nat, nat>)

  datatype Event = Malloc(n: Word) | Free(ptr: nat)

  /** malloc_init. A heap does not begin within the first bytes of memory, nor reach its end. */
  ghost predicate Initial(s: State) {
    && s.heap >= HDR && s.base >= HDR && s.base + s.heap < WORD
    && s.cells == [Cell(s.heap - HDR, true)] && s.live == map[]
  }

  predicate InRange(s: State, ptr: nat) {
    s.base <= ptr <= s.base + s.heap
  }

  /** The step neither hands out a misfit nor runs off the end of the list; what is freed is live, or
      lies outside the heap and is ignored. */
  predicate Safe(s: State, e: Event) {
    && s.cells != [] && Total(s.cells) < WORD
    && match e
       case Malloc(n) => !Misfit(s.cells, n)
       case Free(ptr) => InRange(s, ptr) ==> ptr in s.live && Merged(Freed(s.base, s.cells, ptr)).Some?
  }

  function Step(s: State, e: Event): State {
    if !Safe(s, e) then s
    else
      match e
      case Malloc(n) =>
        var ptr := AllocatedPtr(s.base, s.cells, n);
        s.(cells := AllocatedCells(s.cells, n), live := if ptr.Some? then s.live[ptr.value := n] else s.live)
      case Free(ptr) =>
        if !InRange(s, ptr) then s
        else s.(cells := Merged(Freed(s.base, s.cells, ptr)).value, live := s.live - {ptr})
  }

  predicate IsRun(s: State, es: seq<Event>)
    decreases |es|
  {
    es == [] || (Safe(s, es[0]) && IsRun(Step(s, es[0]), es[1..]))
  }

  function After(s: State, es: seq<Event>): State
    decreases |es|
  {
    if es == [] then s else After(Step(s, es[0]), es[1..])
  }

  /** The blocks fill the heap exactly, and the blocks in use are what the callers hold. */
  ghost predicate Inv(s: State) {
    && s.cells != [] && Total(s.cells) == s.heap && s.base >= HDR && s.base + s.heap < WORD
    && LiveOf(s.base, s.cells) == s.live
  }

  lemma StepKeepsInv(s: State, e: Event)
    requires Inv(s) && Safe(s, e)
    ensures Inv(Step(s, e)) && Step(s, e).heap == s.heap && Step(s, e).base == s.base
  {
    hide LiveOf, Total, Misfit, AllocatedPtr, AllocatedCells, Merged, Freed;
    match e
    case Malloc(n) => AllocKeeps(s.base, s.cells, n);
    case Free(ptr) =>
      if InRange(s, ptr) {
        FreedKeeps(s.base, s.cells, ptr);
        MergeKeeps(s.base, Freed(s.base, s.cells, ptr));
      }
  }

  lemma {:induction false} RunKeepsInv(s: State, es: seq<Event>)
    requires Inv(s) && IsRun(s, es)
    ensures Inv(After(s, es)) && After(s, es).heap == s.heap && After(s, es).base == s.base
    decreases |es|
  {
    hide Inv, Safe, Step;
    if es != [] {
      StepKeepsInv(s, es[0]);
      RunKeepsInv(Step(s, es[0]), es[1..]);
    }
  }

  /** After every run, the blocks tile [base, base + heap), the blocks in use are exactly the regions the
      callers hold, each as long as was asked for, and no two of them touch. */
  lemma HeapTiling(s0: State, es: seq<Event>)
    requires Initial(s0) && IsRun(s0, es)
    ensures var s := After(s0, es);
            && Total(s.cells) == s0.heap
            && LiveOf(s0.base, s.cells) == s.live
            && Separate(s0.base, s0.heap, s.live)
  {
    OneCell(s0.base, s0.cells[0]);
    RunKeepsInv(s0, es);
    LiveSeparate(s0.base, After(s0, es).cells);
  }

  /** In a heap in order, the steps excluded from runs are exactly the ones that go wrong. */
  lemma SafeIff(s: State, e: Event)
    requires Inv(s) && (e.Free? ==> e.ptr in s.live || !InRange(s, e.ptr))
    ensures e.Malloc? ==>
              (Safe(s, e) <==> SoundResult(s.base, s.cells, AllocatedPtr(s.base, s.cells, e.n), e.n))
    ensures e.Free? && InRange(s, e.ptr) ==>
              var trailing := TrailingFree(Freed(s.base, s.cells, e.ptr));
              (Safe(s, e) <==> trailing == 0 || trailing % 2 == 1)
  {
    hide LiveOf, Total, Misfit, AllocatedPtr, Merged, Freed, SoundResult, TrailingFree;
    match e
    case Malloc(n) => MallocSoundIff(s.base, s.cells, n);
    case Free(ptr) => MergeFailsIff(Freed(s.base, s.cells, ptr));
  }

  // --------------------------------------------------------------- two failures

  /** A full heap hands out its only block a second time. */
  lemma TailTakenTwice(s0: State, n: Word)
    requires Initial(s0) && n == s0.heap - HDR && n > 0
    ensures Safe(s0, Malloc(n)) && var s1 := Step(s0, Malloc(n));
              s1.live == map[s0.base + HDR := n] && Misfit(s1.cells, n)
              && AllocatedPtr(s0.base, s1.cells, n) == Some(s0.base + HDR)
  {
    OneCell(s0.base, s0.cells[0]);
    assert s0.cells[..0] == [];
    assert s0.cells[0 := Cell(n, false)] == [Cell(n, false)];
  }

  /** Freeing the first block allocated from a fresh heap reads through a null pointer. */
  lemma FirstFreeFails(s0: State, n: Word)
    requires Initial(s0) && n + 2 * HDR < s0.heap
    ensures Safe(s0, Malloc(n)) && var s1 := Step(s0, Malloc(n));
              s1.live == map[s0.base + HDR := n] && !Safe(s1, Free(s0.base + HDR))
  {
    OneCell(s0.base, s0.cells[0]);
    assert s0.cells[..0] == [] && s0.cells[1..] == [];
    var rest := Cell(s0.heap - HDR - n - HDR, true);
    var s1 := Step(s0, Malloc(n));
    assert s1.cells == [Cell(n, false), rest];
    assert Freed(s0.base, s1.cells, s0.base + HDR) == [Cell(n, true), rest];
  }

  // ------------------------------------------------------------ a safe discipline

  /** The last block is free, and the one before it is in use. */
  predicate TailReady(cells: seq<Cell>) {
    && cells != [] && cells[|cells| - 1].free
    && (|cells| > 1 ==> !cells[|cells| - 2].free)
  }

  /** No request exceeds the heap or takes the last block whole, and the block before the last one is
      not freed. */
  predicate Careful(s: State, e: Event)
    requires s.cells != []
  {
    match e
    case Malloc(n) =>
      var i := Stop(s.cells, n);
      n <= s.heap && !(i == |s.cells| - 1 && s.cells[i].size == n)
    case Free(ptr) =>
      InRange(s, ptr) ==>
        ptr in s.live && (|s.cells| > 1 ==> ptr != s.base + Total(s.cells[..|s.cells| - 2]) + HDR)
  }

  lemma CarefulMalloc(s: State, n: Word)
    requires Inv(s) && TailReady(s.cells) && Careful(s, Malloc(n))
    ensures Safe(s, Malloc(n)) && TailReady(AllocatedCells(s.cells, n))
  {
    hide LiveOf, Total, Stop;
    var i := Stop(s.cells, n);
    StopFits(s.cells, n);
    var last := |s.cells| - 1;
    if s.cells[0].size != 0 && s.cells[i].size != n && s.cells[i].size > Wrap(n + HDR) {
      assert i == last || i < last - 1;
    }
  }

  lemma {:induction false} FreedAt(base: nat, cells: seq<Cell>, ptr: nat, k: nat)
    requires k < |cells|
    ensures Freed(base, cells, ptr)[k].size == cells[k].size
    ensures cells[k].free ==> Freed(base, cells, ptr)[k].free
    ensures ptr != base + Total(cells[..k]) + HDR ==> Freed(base, cells, ptr)[k] == cells[k]
    decreases |cells|
  {
    if ptr != base + HDR && k > 0 {
      FreedAt(base + HDR + cells[0].size, cells[1..], ptr, k - 1);
      assert cells[..k][1..] == cells[1..][..k - 1];
    }
  }

  lemma {:induction false} MergeKeepsTail(cells: seq<Cell>)
    requires TailReady(cells)
    ensures Merged(cells).Some? && TailReady(Merged(cells).value)
    ensures |cells| > 1 ==> |Merged(cells).value| > 1
    decreases |cells|
  {
    if |cells| > 1 {
      if cells[0].free && cells[1].free {
        assert |cells| > 3;
        MergeKeepsTail(cells[2..]);
      } else {
        MergeKeepsTail(cells[1..]);
      }
    }
  }

  lemma CarefulFree(s: State, ptr: nat)
    requires Inv(s) && TailReady(s.cells) && Careful(s, Free(ptr)) && InRange(s, ptr)
    ensures Safe(s, Free(ptr)) && TailReady(Merged(Freed(s.base, s.cells, ptr)).value)
  {
    hide LiveOf, Total, Merged, Freed;
    var last := |s.cells| - 1;
    FreedAt(s.base, s.cells, ptr, last);
    if last > 0 {
      FreedAt(s.base, s.cells, ptr, last - 1);
    }
    MergeKeepsTail(Freed(s.base, s.cells, ptr));
  }

  ghost predicate CarefulRun(s: State, es: seq<Event>)
    decreases |es|
  {
    es == [] || (s.cells != [] && Careful(s, es[0]) && CarefulRun(Step(s, es[0]), es[1..]))
  }

  lemma CarefulStep(s: State, e: Event)
    requires Inv(s) && TailReady(s.cells) && Careful(s, e)
    ensures Safe(s, e) && TailReady(Step(s, e).cells)
  {
    hide LiveOf, Total, Misfit, AllocatedCells, AllocatedPtr, Merged, Freed, TailReady, Stop;
    match e
    case Malloc(n) => CarefulMalloc(s, n);
    case Free(ptr) =>
      if InRange(s, ptr) {
        CarefulFree(s, ptr);
      }
  }

  lemma {:induction false} CarefulFrom(s: State, es: seq<Event>)
    requires Inv(s) && TailReady(s.cells) && CarefulRun(s, es)
    ensures IsRun(s, es) && TailReady(After(s, es).cells)
    decreases |es|
  {
    hide Inv, Safe, Step, Careful, TailReady;
    if es != [] {
      CarefulStep(s, es[0]);
      StepKeepsInv(s, es[0]);
      CarefulFrom(Step(s, es[0]), es[1..]);
    }
  }

  /** Callers who follow the discipline never meet a misfit or a null pointer, and the last block stays
      free. */
  lemma CarefulRunsAreSafe(s0: State, es: seq<Event>)
    requires Initial(s0) && CarefulRun(s0, es)
    ensures IsRun(s0, es) && TailReady(After(s0, es).cells)
  {
    OneCell(s0.base, s0.cells[0]);
    CarefulFrom(s0, es);
  }
}
