/** The guest kernel's allocator on values: the heap is a list of blocks, each a 12-byte header followed
    by `size` bytes, lying one after another from `base`. */
module HeapBlocks {
  import opened Words

  const HDR: nat := 12

  datatype Cell = Cell(size: nat, free: bool)

  /** The number of bytes that the blocks and their headers occupy. */
  function Total(cells: seq<Cell>): nat {
    if cells == [] then 0 else HDR + cells[0].size + Total(cells[1..])
  }

  /** The regions in use: where each begins, and how long it is. */
  function LiveOf(base: nat, cells: seq<Cell>): map<nat, nat>
    decreases |cells|
  {
    if cells == [] then map[]
    else
      var rest := LiveOf(base + HDR + cells[0].size, cells[1..]);
      if cells[0].free then rest else rest[base + HDR := cells[0].size]
  }

  predicate Apart(p: nat, n: nat, q: nat, m: nat) {
    p + n + HDR <= q || q + m + HDR <= p
  }

  /** Every region lies inside [base, base + total), behind its header. */
  ghost predicate Inside(base: nat, total: nat, live: map<nat, nat>) {
    forall p :: p in live ==> base + HDR <= p && p + live[p] <= base + total
  }

  /** The regions lie inside, and no two touch. */
  ghost predicate Separate(base: nat, total: nat, live: map<nat, nat>) {
    && Inside(base, total, live)
    && (forall p, q :: p in live && q in live && p != q ==> Apart(p, live[p], q, live[q]))
  }

  // ---------------------------------------------------------------- allocation

  predicate Fits(c: Cell, n: nat) {
    c.free && c.size >= n
  }

  /** Where the search of malloc ends: at the first free block that is large enough, or at the last. */
  function Stop(cells: seq<Cell>, n: nat): (i: nat)
    requires cells != []
    ensures i < |cells|
  {
    if |cells| == 1 || Fits(cells[0], n) then 0 else 1 + Stop(cells[1..], n)
  }

  /** The search found no block, and yet one of the two comparisons that follow it lets the last block
      pass: it is in use, or `n` plus the header size has wrapped around. */
  predicate Misfit(cells: seq<Cell>, n: Word)
    requires cells != []
  {
    var c := cells[Stop(cells, n)];
    cells[0].size != 0 && !Fits(c, n) && (c.size == n || c.size > Wrap(n + HDR))
  }

  /** The pointer that malloc returns. */
  function AllocatedPtr(base: nat, cells: seq<Cell>, n: Word): Option<nat>
    requires cells != []
  {
    var i := Stop(cells, n);
    if cells[0].size != 0 && (cells[i].size == n || cells[i].size > Wrap(n + HDR))
    then Some(base + Total(cells[..i]) + HDR) else None
  }

  /** A misfit whose size wraps around together with the header. */
  predicate Overflows(cells: seq<Cell>, n: Word)
    requires cells != []
  {
    Misfit(cells, n) && n + HDR >= WORD
  }

  /** The blocks afterwards. */
  function AllocatedCells(cells: seq<Cell>, n: Word): (r: seq<Cell>)
    requires cells != [] && Total(cells) < WORD && !Overflows(cells, n)
  {
    var i := Stop(cells, n);
    var c := cells[i];
    if cells[0].size == 0 then cells
    else if c.size == n then cells[i := Cell(n, false)]
    else if c.size > Wrap(n + HDR) then
      CellBelowTotal(cells, i);
      cells[..i] + [Cell(n, false), Cell(c.size - n - HDR, true)] + cells[i + 1..]
    else cells
  }

  lemma {:induction false} CellBelowTotal(cells: seq<Cell>, i: nat)
    requires i < |cells|
    ensures Total(cells[..i]) + HDR + cells[i].size <= Total(cells)
  {
    if i > 0 {
      CellBelowTotal(cells[1..], i - 1);
      assert cells[..i][1..] == cells[1..][..i - 1];
    }
  }

  // --------------------------------------------------------------------- merge

  /** merge joins neighbouring free blocks two by two. After a join it moves on to the block behind the
      pair, which may not exist; it then reads through a null pointer. */
  function Merged(cells: seq<Cell>): (r: Option<seq<Cell>>)
    requires cells != []
    ensures r.Some? ==> r.value != []
  {
    if |cells| == 1 then Some(cells)
    else if cells[0].free && cells[1].free then
      if |cells| == 2 then None
      else
        var rest := Merged(cells[2..]);
        if rest.None? then None
        else Some([Cell(cells[0].size + HDR + cells[1].size, true)] + rest.value)
    else
      var rest := Merged(cells[1..]);
      if rest.None? then None else Some([cells[0]] + rest.value)
  }

  /** The number of free blocks at the end of the list. */
  function TrailingFree(cells: seq<Cell>): nat {
    if cells == [] || !cells[|cells| - 1].free then 0 else 1 + TrailingFree(cells[..|cells| - 1])
  }

  lemma {:induction false} TrailingFreeTail(cells: seq<Cell>)
    requires |cells| > 1
    ensures TrailingFree(cells[1..]) ==
            if TrailingFree(cells) == |cells| then |cells| - 1 else TrailingFree(cells)
    ensures TrailingFree(cells) == |cells| ==> cells[0].free
    ensures cells[0].free ==> TrailingFree(cells) != |cells| - 1
    ensures TrailingFree(cells) <= |cells|
    decreases |cells|
  {
    var front := cells[..|cells| - 1];
    assert cells[1..][..|cells| - 2] == front[1..];
    if |cells| > 2 {
      TrailingFreeTail(front);
    } else {
      assert front[1..] == [] && front[..0] == [];
      assert TrailingFree(front) == if cells[0].free then 1 else 0;
    }
  }

  /** merge runs off the end exactly when the list ends with an even, non-zero number of free blocks. */
  lemma {:induction false} MergeFailsIff(cells: seq<Cell>)
    requires cells != []
    ensures Merged(cells).None? <==> TrailingFree(cells) > 0 && TrailingFree(cells) % 2 == 0
    decreases |cells|
  {
    if |cells| == 1 {
      assert cells[..0] == [];
    } else {
      TrailingFreeTail(cells);
      if cells[0].free && cells[1].free {
        if |cells| == 2 {
          assert cells[..1][..0] == [];
          assert TrailingFree(cells[..1]) == 1;
        } else {
          TrailingFreeTail(cells[1..]);
          assert cells[1..][1..] == cells[2..];
          MergeFailsIff(cells[2..]);
        }
      } else {
        MergeFailsIff(cells[1..]);
        if TrailingFree(cells) == |cells| {
          TrailingFreeTail(cells[1..]);
        }
      }
    }
  }

  predicate AllFree(cells: seq<Cell>) {
    forall i :: 0 <= i < |cells| ==> cells[i].free
  }

  /** Neighbours joined, two by two from the front; a last one without a neighbour stays. */
  function Pairs(run: seq<Cell>): (r: seq<Cell>)
    ensures |r| == (|run| + 1) / 2
  {
    seq((|run| + 1) / 2, i requires 0 <= i < (|run| + 1) / 2 =>
      if 2 * i + 1 < |run| then Cell(run[2 * i].size + HDR + run[2 * i + 1].size, true) else run[2 * i])
  }

  lemma PairsFirst(run: seq<Cell>)
    requires |run| >= 2
    ensures Pairs(run) == [Cell(run[0].size + HDR + run[1].size, true)] + Pairs(run[2..])
  {
  }

  /** What merge makes of a list, run by run: of free blocks followed by a block in use it joins the
      neighbours and goes on; a block in use stays; free blocks at the end are joined likewise, if their
      number is odd. */
  lemma {:induction false} MergeByRuns(run: seq<Cell>, rest: seq<Cell>)
    requires AllFree(run) && run + rest != [] && (rest == [] || !rest[0].free)
    ensures rest != [] ==>
              Merged(run + rest) == if Merged(rest).None? then None else Some(Pairs(run) + Merged(rest).value)
    ensures rest == [] ==> Merged(run) == if |run| % 2 == 0 then None else Some(Pairs(run))
    ensures |rest| > 1 ==>
              Merged(rest) == if Merged(rest[1..]).None? then None else Some([rest[0]] + Merged(rest[1..]).value)
    decreases |run|
  {
    var cells := run + rest;
    if |run| == 0 {
      assert cells == rest;
      assert Merged(rest).Some? ==> Pairs(run) + Merged(rest).value == Merged(rest).value;
    } else if |run| == 1 {
      assert Pairs(run) == run;
      assert cells[1..] == rest && cells[0] == run[0];
      assert rest == [] ==> cells == run;
      assert [run[0]] == run;
    } else {
      assert cells[2..] == run[2..] + rest;
      if |cells| > 2 {
        MergeByRuns(run[2..], rest);
        PairsFirst(run);
        if rest != [] && Merged(rest).Some? {
          ConcatAssociates([Cell(run[0].size + HDR + run[1].size, true)], Pairs(run[2..]), Merged(rest).value);
        }
      } else {
        assert rest == [] && cells == run;
      }
      assert rest == [] ==> cells == run && cells[2..] == run[2..];
    }
  }

  // ------------------------------------------------------------------- tiling

  lemma {:induction false} TotalConcat(a: seq<Cell>, b: seq<Cell>)
    ensures Total(a + b) == Total(a) + Total(b)
    decreases |a|
  {
    if a == [] {
      assert a + b == b;
    } else {
      assert (a + b)[1..] == a[1..] + b;
      TotalConcat(a[1..], b);
    }
  }

  lemma {:induction false} LiveConcat(base: nat, a: seq<Cell>, b: seq<Cell>)
    ensures LiveOf(base, a + b) == LiveOf(base + Total(a), b) + LiveOf(base, a)
    decreases |a|
  {
    if a == [] {
      assert a + b == b;
    } else {
      assert (a + b)[1..] == a[1..] + b;
      LiveConcat(base + HDR + a[0].size, a[1..], b);
    }
  }

  /** Blocks that lie one after another keep their regions apart. */
  lemma {:induction false} LiveSeparate(base: nat, cells: seq<Cell>)
    ensures Separate(base, Total(cells), LiveOf(base, cells))
    decreases |cells|
  {
    if cells != [] {
      LiveSeparate(base + HDR + cells[0].size, cells[1..]);
    }
  }

  lemma LiveInside(base: nat, cells: seq<Cell>)
    ensures Inside(base, Total(cells), LiveOf(base, cells))
  {
    LiveSeparate(base, cells);
  }

  /** Joining free blocks moves no block in use and loses no byte. */
  lemma {:induction false} MergeKeeps(base: nat, cells: seq<Cell>)
    requires cells != [] && Merged(cells).Some?
    ensures Total(Merged(cells).value) == Total(cells)
    ensures LiveOf(base, Merged(cells).value) == LiveOf(base, cells)
    decreases |cells|
  {
    if |cells| > 1 {
      if cells[0].free && cells[1].free {
        assert cells[1..][1..] == cells[2..];
        MergeKeeps(base + HDR + cells[0].size + HDR + cells[1].size, cells[2..]);
      } else {
        MergeKeeps(base + HDR + cells[0].size, cells[1..]);
      }
    }
  }

  /** Replacing block i changes the regions at that place only. */
  lemma ReplaceCells(base: nat, cells: seq<Cell>, i: nat, mid: seq<Cell>)
    requires i < |cells| && Total(mid) == Total([cells[i]])
    ensures var at := base + Total(cells[..i]);
            var cells' := cells[..i] + mid + cells[i + 1..];
            var around := LiveOf(at + Total(mid), cells[i + 1..]);
            && Total(cells') == Total(cells)
            && LiveOf(base, cells') == around + LiveOf(at, mid) + LiveOf(base, cells[..i])
            && LiveOf(base, cells) == around + LiveOf(at, [cells[i]]) + LiveOf(base, cells[..i])
  {
    hide LiveOf, Total;
    var front, back := cells[..i], cells[i + 1..];
    assert cells == front + ([cells[i]] + back);
    assert front + mid + back == front + (mid + back);
    TotalConcat(front, mid + back);
    TotalConcat(mid, back);
    TotalConcat(front, [cells[i]] + back);
    TotalConcat([cells[i]], back);
    LiveConcat(base, front, mid + back);
    LiveConcat(base + Total(front), mid, back);
    LiveConcat(base, front, [cells[i]] + back);
    LiveConcat(base + Total(front), [cells[i]], back);
  }

  lemma {:induction false} StopFits(cells: seq<Cell>, n: nat)
    requires cells != []
    ensures var i := Stop(cells, n);
            && (Fits(cells[i], n) || i == |cells| - 1)
            && forall j :: 0 <= j < i ==> !Fits(cells[j], n)
    decreases |cells|
  {
    if |cells| > 1 && !Fits(cells[0], n) {
      StopFits(cells[1..], n);
      forall j | 0 <= j < Stop(cells, n)
        ensures !Fits(cells[j], n)
      {
        assert j > 0 ==> cells[j] == cells[1..][j - 1];
      }
    }
  }

  lemma OneCell(at: nat, c: Cell)
    ensures Total([c]) == HDR + c.size
    ensures LiveOf(at, [c]) == if c.free then map[] else map[at + HDR := c.size]
  {
  }

  lemma SplitCell(at: nat, n: nat, rest: nat)
    ensures Total([Cell(n, false), Cell(rest, true)]) == HDR + n + HDR + rest
    ensures LiveOf(at, [Cell(n, false), Cell(rest, true)]) == map[at + HDR := n]
  {
    OneCell(at, Cell(n, false));
    OneCell(at + HDR + n, Cell(rest, true));
    assert [Cell(n, false), Cell(rest, true)] == [Cell(n, false)] + [Cell(rest, true)];
    TotalConcat([Cell(n, false)], [Cell(rest, true)]);
    LiveConcat(at, [Cell(n, false)], [Cell(rest, true)]);
  }

  /** A block's place: everything else that is live keeps clear of it. */
  lemma PlaceApart(base: nat, cells: seq<Cell>, i: nat)
    requires i < |cells|
    ensures var p := base + Total(cells[..i]) + HDR;
            && base + HDR <= p && p + cells[i].size <= base + Total(cells)
            && (i == |cells| - 1 ==> p + cells[i].size == base + Total(cells))
            && (p in LiveOf(base, cells) <==> !cells[i].free)
            && forall q :: q in LiveOf(base, cells) && q != p ==> Apart(p, cells[i].size, q, LiveOf(base, cells)[q])
  {
    hide LiveOf, Total;
    var front, back := cells[..i], cells[i + 1..];
    var at := base + Total(front);
    OneCell(at, cells[i]);
    assert front + [cells[i]] + back == cells;
    ReplaceCells(base, cells, i, [cells[i]]);
    TotalConcat(front, [cells[i]]);
    TotalConcat(front + [cells[i]], back);
    LiveInside(base, front);
    LiveInside(at + HDR + cells[i].size, back);
    assert i == |cells| - 1 ==> back == [];
    EmptyTotal();
    forall q | q in LiveOf(base, cells) && q != at + HDR
      ensures Apart(at + HDR, cells[i].size, q, LiveOf(base, cells)[q])
    {
      assert q in LiveOf(base, front) || q in LiveOf(at + HDR + cells[i].size, back);
    }
  }

  lemma EmptyTotal()
    ensures Total([]) == 0
  {
  }

  /** What malloc must not do: hand out a pointer twice, leave the heap, or touch a live region. */
  ghost predicate SoundResult(base: nat, cells: seq<Cell>, ptr: Option<nat>, n: nat) {
    ptr.Some? ==>
      && ptr.value !in LiveOf(base, cells)
      && base <= ptr.value && ptr.value + n <= base + Total(cells)
      && forall q :: q in LiveOf(base, cells) ==> Apart(ptr.value, n, q, LiveOf(base, cells)[q])
  }

  lemma NoWrappedFit(cells: seq<Cell>, i: nat, n: Word)
    requires i < |cells| && Total(cells) < WORD && Fits(cells[i], n)
    ensures Wrap(n + HDR) == n + HDR
  {
    CellBelowTotal(cells, i);
  }

  /** malloc is sound exactly when the search does not end in a misfit. */
  lemma MallocSoundIff(base: nat, cells: seq<Cell>, n: Word)
    requires cells != [] && Total(cells) < WORD
    ensures SoundResult(base, cells, AllocatedPtr(base, cells, n), n) <==> !Misfit(cells, n)
  {
    hide LiveOf, Total, Stop;
    var i := Stop(cells, n);
    StopFits(cells, n);
    PlaceApart(base, cells, i);
  }

  ghost predicate IsFirstFit(cells: seq<Cell>, n: nat, i: nat) {
    i < |cells| && Fits(cells[i], n) && forall j :: 0 <= j < i ==> !Fits(cells[j], n)
  }

  lemma StopIsFirstFit(cells: seq<Cell>, n: nat, i: nat)
    requires IsFirstFit(cells, n, i)
    ensures Stop(cells, n) == i
  {
    hide Stop;
    StopFits(cells, n);
  }

  /** malloc takes the first free block that is large enough, whole if it has the size asked for, split if
      the rest has room for more than a header; between these it fails, although later blocks might do. It
      fails, too, if the very first block has no bytes. */
  lemma FirstFitTaken(base: nat, cells: seq<Cell>, n: Word, i: nat)
    requires Total(cells) < WORD && IsFirstFit(cells, n, i) && cells[0].size != 0
    ensures var ptr, spare := AllocatedPtr(base, cells, n), cells[i].size - n;
            && !Misfit(cells, n)
            && ptr == (if spare == 0 || spare > HDR then Some(base + Total(cells[..i]) + HDR) else None)
            && AllocatedCells(cells, n) ==
               (if spare == 0 then cells[..i] + [Cell(n, false)] + cells[i + 1..]
                else if spare > HDR then cells[..i] + [Cell(n, false), Cell(spare - HDR, true)] + cells[i + 1..]
                else cells)
  {
    hide Stop, Total;
    StopIsFirstFit(cells, n, i);
    NoWrappedFit(cells, i, n);
    assert cells[i := Cell(n, false)] == cells[..i] + [Cell(n, false)] + cells[i + 1..];
  }

  lemma NothingFits(base: nat, cells: seq<Cell>, n: Word)
    requires cells != [] && Total(cells) < WORD && !Misfit(cells, n)
    requires cells[0].size == 0 || forall i :: 0 <= i < |cells| ==> !Fits(cells[i], n)
    ensures AllocatedPtr(base, cells, n) == None && AllocatedCells(cells, n) == cells
  {
  }

  lemma AllocKeeps(base: nat, cells: seq<Cell>, n: Word)
    requires cells != [] && Total(cells) < WORD && !Misfit(cells, n)
    ensures var ptr := AllocatedPtr(base, cells, n);
            var cells' := AllocatedCells(cells, n);
            && cells' != [] && Total(cells') == Total(cells)
            && LiveOf(base, cells') ==
               if ptr.Some? then LiveOf(base, cells)[ptr.value := n] else LiveOf(base, cells)
  {
    hide LiveOf, Total, Stop;
    var ptr := AllocatedPtr(base, cells, n);
    if ptr.Some? {
      var i := Stop(cells, n);
      NoWrappedFit(cells, i, n);
      assert AllocatedCells(cells, n) == cells[..i] + Taken(cells[i], n) + cells[i + 1..];
      TakePlace(base, cells, i, n);
    }
  }

  /** What a block leaves when `n` bytes of it are taken. */
  function Taken(c: Cell, n: nat): seq<Cell>
    requires c.size == n || c.size >= n + HDR
  {
    if c.size == n then [Cell(n, false)] else [Cell(n, false), Cell(c.size - n - HDR, true)]
  }

  lemma TakePlace(base: nat, cells: seq<Cell>, i: nat, n: nat)
    requires i < |cells| && cells[i].free && (cells[i].size == n || cells[i].size >= n + HDR)
    ensures var p := base + Total(cells[..i]) + HDR;
            var cells' := cells[..i] + Taken(cells[i], n) + cells[i + 1..];
            Total(cells') == Total(cells) && LiveOf(base, cells') == LiveOf(base, cells)[p := n]
  {
    hide LiveOf, Total;
    var at := base + Total(cells[..i]);
    OneCell(at, cells[i]);
    if cells[i].size == n {
      OneCell(at, Cell(n, false));
    } else {
      SplitCell(at, n, cells[i].size - n - HDR);
    }
    ReplaceCells(base, cells, i, Taken(cells[i], n));
    LiveInside(base, cells[..i]);
  }

  // ---------------------------------------------------------------------- free

  /** The block that ptr points behind is marked free. */
  function Freed(base: nat, cells: seq<Cell>, ptr: nat): (r: seq<Cell>)
    ensures |r| == |cells|
    decreases |cells|
  {
    if cells == [] then []
    else if ptr == base + HDR then [cells[0].(free := true)] + cells[1..]
    else [cells[0]] + Freed(base + HDR + cells[0].size, cells[1..], ptr)
  }

  lemma ConsCell(base: nat, c: Cell, rest: seq<Cell>)
    ensures Total([c] + rest) == HDR + c.size + Total(rest)
    ensures var behind := LiveOf(base + HDR + c.size, rest);
            && LiveOf(base, [c] + rest) == (if c.free then behind else behind[base + HDR := c.size])
            && base + HDR !in behind
  {
    assert ([c] + rest)[1..] == rest;
    LiveInside(base + HDR + c.size, rest);
  }

  lemma OpenFirst(base: nat, c: Cell, rest: seq<Cell>)
    requires base + HDR in LiveOf(base, [c] + rest)
    ensures Total([c.(free := true)] + rest) == Total([c] + rest)
    ensures LiveOf(base, [c.(free := true)] + rest) == LiveOf(base, [c] + rest) - {base + HDR}
  {
    hide LiveOf, Total;
    ConsCell(base, c, rest);
    ConsCell(base, c.(free := true), rest);
  }

  lemma OpenLater(base: nat, c: Cell, rest: seq<Cell>, rest': seq<Cell>, ptr: nat)
    requires Total(rest') == Total(rest) && ptr != base + HDR
    requires LiveOf(base + HDR + c.size, rest') == LiveOf(base + HDR + c.size, rest) - {ptr}
    ensures Total([c] + rest') == Total([c] + rest)
    ensures LiveOf(base, [c] + rest') == LiveOf(base, [c] + rest) - {ptr}
  {
    hide LiveOf, Total;
    ConsCell(base, c, rest);
    ConsCell(base, c, rest');
  }

  lemma {:induction false} FreedKeeps(base: nat, cells: seq<Cell>, ptr: nat)
    requires ptr in LiveOf(base, cells)
    ensures Total(Freed(base, cells, ptr)) == Total(cells)
    ensures LiveOf(base, Freed(base, cells, ptr)) == LiveOf(base, cells) - {ptr}
    decreases |cells|
  {
    var c, rest := cells[0], cells[1..];
    assert cells == [c] + rest;
    if ptr == base + HDR {
      OpenFirst(base, c, rest);
    } else {
      FreedKeeps(base + HDR + c.size, rest, ptr);
      OpenLater(base, c, rest, Freed(base + HDR + c.size, rest, ptr), ptr);
    }
  }
}
