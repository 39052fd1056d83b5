/** The allocator as the guest kernel runs it: headers stored at addresses, linked by next pointers. */
module Heap {
  import opened Words
  import opened HeapBlocks

  const NULL: nat := 0

  datatype Header = Header(size: nat, free: bool, next: nat)

  type Store = map<nat, Header>

  /** Headers at these two addresses do not overlap. */
  predicate HeadersApart(a: nat, b: nat) {
    a + HDR <= b || b + HDR <= a
  }

  lemma BothWritten(h: Store, h': Store, a: nat, b: nat)
    requires a in h' && b in h' && h' - {a, b} == h - {a, b}
    ensures h' == h[b := h'[b]][a := h'[a]]
  {
    forall x | x != a && x != b
      ensures x in h <==> x in h'
      ensures x in h ==> h[x] == h'[x]
    {
      assert x in h <==> x in h - {a, b};
      assert x in h' <==> x in h' - {a, b};
      assert x in h ==> (h - {a, b})[x] == h[x] && (h' - {a, b})[x] == h'[x];
    }
  }

  /** The headers linked from `from` describe `cells`, each block directly behind the one before it;
      the last header's next pointer is `to`. */
  ghost predicate Seg(h: Store, from: nat, cells: seq<Cell>, to: nat)
    decreases |cells|
  {
    if cells == [] then from == to
    else
      && from in h && h[from].size == cells[0].size && h[from].free == cells[0].free
      && (|cells| > 1 ==> h[from].next == from + HDR + cells[0].size)
      && Seg(h, h[from].next, cells[1..], to)
  }

  /** A write outside the segment's bytes leaves it as it is. */
  lemma {:induction false} SegFrame(h: Store, h': Store, from: nat, cells: seq<Cell>, to: nat)
    requires Seg(h, from, cells, to)
    requires forall a :: a in h && from <= a < from + Total(cells) ==> a in h' && h'[a] == h[a]
    ensures Seg(h', from, cells, to)
    decreases |cells|
  {
    if |cells| > 1 {
      SegFrame(h, h', h[from].next, cells[1..], to);
    }
  }

  /** A chain ends at the header of what follows it. */
  lemma {:induction false} SegSplit(h: Store, from: nat, a: seq<Cell>, b: seq<Cell>, to: nat)
    requires Seg(h, from, a + b, to) && b != []
    ensures Seg(h, from, a, from + Total(a)) && Seg(h, from + Total(a), b, to)
    decreases |a|
  {
    if a == [] {
      assert a + b == b;
    } else {
      assert (a + b)[1..] == a[1..] + b;
      SegSplit(h, h[from].next, a[1..], b, to);
    }
  }

  lemma {:induction false} SegJoin(h: Store, from: nat, a: seq<Cell>, b: seq<Cell>, to: nat)
    requires Seg(h, from, a, from + Total(a)) && Seg(h, from + Total(a), b, to) && b != []
    ensures Seg(h, from, a + b, to)
    decreases |a|
  {
    if a == [] {
      assert a + b == b;
    } else {
      assert (a + b)[1..] == a[1..] + b;
      if |a| > 1 {
        SegJoin(h, h[from].next, a[1..], b, to);
      } else {
        assert a[1..] == [] && a[1..] + b == b;
        assert Total(a) == HDR + a[0].size;
        assert h[from].next == from + Total(a);
      }
    }
  }

  lemma {:induction false} SegEnd(h: Store, from: nat, cells: seq<Cell>, to: nat, to': nat)
    requires Seg(h, from, cells, to) && Seg(h, from, cells, to')
    ensures to == to'
    decreases |cells|
  {
    if cells != [] {
      SegEnd(h, h[from].next, cells[1..], to, to');
    }
  }

  /** The blocks `was` in the middle of the list may be re-linked as `now`, in the same bytes. */
  lemma SegReplace(h: Store, h': Store, from: nat,
                   front: seq<Cell>, was: seq<Cell>, now: seq<Cell>, back: seq<Cell>, to: nat)
    requires Seg(h, from, front + was + back, NULL) && was != [] && now != []
    requires Seg(h, from + Total(front), was, to) && Seg(h', from + Total(front), now, to)
    requires Total(now) == Total(was)
    requires forall a :: a in h && !(from + Total(front) <= a < from + Total(front) + Total(was)) ==>
                           a in h' && h'[a] == h[a]
    ensures Seg(h', from, front + now + back, NULL)
  {
    hide Seg, Total;
    var at := from + Total(front);
    assert front + was + back == front + (was + back);
    SegSplit(h, from, front, was + back, NULL);
    SegFrame(h, h', from, front, at);
    if back == [] {
      assert was + back == was && now + back == now;
      SegEnd(h, at, was, NULL, to);
    } else {
      SegSplit(h, at, was, back, NULL);
      SegEnd(h, at, was, at + Total(was), to);
      SegFrame(h, h', at + Total(was), back, NULL);
      SegJoin(h', at, now, back, NULL);
    }
    SegJoin(h', from, front, now + back, NULL);
    assert front + now + back == front + (now + back);
  }

  lemma SegOne(h: Store, from: nat, c: Cell)
    requires from in h && h[from].size == c.size && h[from].free == c.free
    ensures Seg(h, from, [c], h[from].next)
  {
  }

  lemma SegTwo(h: Store, from: nat, c: Cell, d: Cell)
    requires from in h && h[from] == Header(c.size, c.free, from + HDR + c.size)
    requires from + HDR + c.size in h && var e := h[from + HDR + c.size]; e.size == d.size && e.free == d.free
    ensures Seg(h, from, [c, d], h[from + HDR + c.size].next)
  {
    assert [c, d][1..] == [d];
    SegOne(h, from + HDR + c.size, d);
  }

  lemma TwoTotal(c: Cell, d: Cell)
    ensures Total([c, d]) == HDR + c.size + HDR + d.size
  {
    assert [c, d] == [c] + [d];
    TotalConcat([c], [d]);
  }

  /** The live pointer p belongs to one block, the one that Freed opens. */
  lemma {:induction false} LiveIndex(base: nat, cells: seq<Cell>, p: nat) returns (i: nat)
    requires p in LiveOf(base, cells)
    ensures i < |cells| && p == base + Total(cells[..i]) + HDR
    ensures Freed(base, cells, p) == cells[i := cells[i].(free := true)]
    decreases |cells|
  {
    assert cells != [];
    hide LiveOf, Total;
    var c, rest := cells[0], cells[1..];
    assert cells == [c] + rest;
    ConsCell(base, c, rest);
    if p == base + HDR {
      i := 0;
      EmptyTotal();
    } else {
      var k := LiveIndex(base + HDR + c.size, rest, p);
      i := k + 1;
      assert cells[..i] == [c] + rest[..k];
      ConsCell(base, c, rest[..k]);
    }
  }

  class Allocator {
    var freeList: nat
    var memory: nat
    var heapSize: nat
    var headers: Store
    ghost var cells: seq<Cell>

    ghost predicate Valid()
      reads this
    {
      && cells != [] && freeList == memory && memory >= HDR && memory + heapSize < WORD
      && Total(cells) == heapSize
      && Seg(headers, memory, cells, NULL)
    }

    /** malloc_init. */
    constructor (ptr: nat, sz: nat)
      requires sz >= HDR && ptr >= HDR && ptr + sz < WORD
      ensures Valid() && memory == ptr && heapSize == sz && cells == [Cell(sz - HDR, true)]
    {
      memory, freeList, heapSize := ptr, ptr, sz;
      headers := map[ptr := Header(sz - HDR, true, NULL)];
      cells := [Cell(sz - HDR, true)];
    }

    /** The header at `slot` is written last. What the other one holds is said only if the two do not
        overlap. */
    method Split(slot: nat, n: Word)
      requires slot in headers
      modifies this`headers
      ensures var was, added := old(headers)[slot], Wrap(slot + n + HDR);
              && slot in headers && added in headers && headers[slot] == Header(n, false, added)
              && headers - {slot, added} == old(headers) - {slot, added}
              && (HeadersApart(slot, added) ==>
                    headers[added] == Header(Wrap(was.size - n - HDR), true, was.next))
    {
      var added := Wrap(slot + n + HDR);
      headers := headers[added := Header(Wrap(headers[slot].size - n - HDR), true, headers[slot].next)];
      headers := headers[slot := Header(n, false, added)];
    }

    /** Following next pointers has led to block i, at curr. */
    ghost predicate At(curr: nat, i: nat)
      reads this
    {
      && Valid() && i < |cells| && curr == memory + Total(cells[..i])
      && Seg(headers, curr, cells[i..], NULL)
    }

    lemma Begin()
      requires Valid()
      ensures freeList == memory && At(memory, 0)
    {
      assert cells[0..] == cells;
    }

    lemma Here(curr: nat, i: nat)
      requires At(curr, i)
      ensures Valid() && i < |cells| && curr in headers
      ensures headers[curr].size == cells[i].size && headers[curr].free == cells[i].free
      ensures headers[curr].next == NULL <==> i == |cells| - 1
      ensures curr == memory + Total(cells[..i]) && curr >= HDR && curr + HDR + cells[i].size < WORD
    {
      CellBelowTotal(cells, i);
      assert cells[i..][1..] == cells[i + 1..];
      if i == |cells| - 1 {
        assert cells[i..] == [cells[i]];
        SegOne(headers, curr, cells[i]);
        SegEnd(headers, curr, [cells[i]], NULL, headers[curr].next);
      }
    }

    lemma Advance(curr: nat, i: nat)
      requires At(curr, i) && i + 1 < |cells|
      ensures curr in headers && At(headers[curr].next, i + 1)
    {
      assert cells[i..][1..] == cells[i + 1..];
      assert cells[..i + 1] == cells[..i] + [cells[i]];
      TotalConcat(cells[..i], [cells[i]]);
      OneCell(0, cells[i]);
    }

    /** The first loop of malloc. */
    method Search(n: Word) returns (curr: nat)
      requires Valid()
      ensures At(curr, Stop(cells, n))
    {
      hide Seg, Total, Valid, At;
      Begin();
      curr := freeList;
      ghost var i := 0;
      Here(curr, i);
      assert cells[0..] == cells;
      while (headers[curr].size < n || !headers[curr].free) && headers[curr].next != NULL
        invariant At(curr, i) && i < |cells| && curr in headers
        invariant Stop(cells, n) == i + Stop(cells[i..], n)
        decreases |cells| - i
      {
        Here(curr, i);
        Advance(curr, i);
        assert cells[i..][1..] == cells[i + 1..];
        curr := headers[curr].next;
        i := i + 1;
        Here(curr, i);
      }
      Here(curr, i);
    }

    lemma Middle(i: nat)
      requires i < |cells|
      ensures cells == cells[..i] + [cells[i]] + cells[i + 1..]
    {
    }

    /** Block i, at curr, is taken for `n` bytes: whole, or split. */
    lemma Relinked(h: Store, curr: nat, i: nat, n: Word)
      requires At(curr, i) && curr in headers && (cells[i].size == n || cells[i].size >= n + HDR)
      requires cells[i].size == n ==> h == headers[curr := headers[curr].(free := false)]
      requires cells[i].size != n ==>
                 h == headers[curr + n + HDR := Header(cells[i].size - n - HDR, true, headers[curr].next)]
                             [curr := Header(n, false, curr + n + HDR)]
      ensures Seg(h, memory, cells[..i] + Taken(cells[i], n) + cells[i + 1..], NULL)
    {
      Here(curr, i);
      Middle(i);
      hide Seg, Total;
      var to := headers[curr].next;
      SegOne(headers, curr, cells[i]);
      OneCell(0, cells[i]);
      if cells[i].size == n {
        SegOne(h, curr, Cell(n, false));
        OneCell(0, Cell(n, false));
      } else {
        var rest := Cell(cells[i].size - n - HDR, true);
        SegTwo(h, curr, Cell(n, false), rest);
        TwoTotal(Cell(n, false), rest);
      }
      SegReplace(headers, h, memory, cells[..i], [cells[i]], Taken(cells[i], n), cells[i + 1..], to);
    }

    lemma Placeable(i: nat, n: Word)
      requires Valid() && i == Stop(cells, n) && !Overflows(cells, n) && cells[0].size != 0
      requires cells[i].size == n || cells[i].size > Wrap(n + HDR)
      ensures cells[i].size == n || cells[i].size >= n + HDR
      ensures AllocatedCells(cells, n) == cells[..i] + Taken(cells[i], n) + cells[i + 1..]
      ensures Total(AllocatedCells(cells, n)) == heapSize && AllocatedCells(cells, n) != []
    {
      hide Seg, Total;
      if !Misfit(cells, n) {
        NoWrappedFit(cells, i, n);
      }
      OneCell(0, cells[i]);
      if cells[i].size == n {
        OneCell(0, Cell(n, false));
      } else {
        SplitCell(0, n, cells[i].size - n - HDR);
      }
      ReplaceCells(0, cells, i, Taken(cells[i], n));
    }

    /** NULL stands for failure. The list afterwards is described whatever was found; unless the size wraps
        around. Then the last block's header claims n bytes and links to an address inside itself. If that
        is its own address, nothing else has changed; otherwise a second header overlaps it there. */
    method Malloc(n: Word) returns (ptr: nat)
      requires Valid()
      modifies this`headers, this`cells
      ensures ptr == var p := AllocatedPtr(memory, old(cells), n); if p.Some? then p.value else NULL
      ensures !Overflows(old(cells), n) ==> Valid() && cells == AllocatedCells(old(cells), n)
      ensures Overflows(old(cells), n) ==>
                var slot, added := ptr - HDR, ptr + n - WORD;
                && slot in old(headers) && slot <= added < ptr
                && slot in headers && headers[slot] == Header(n, false, added)
                && headers - {slot, added} == old(headers) - {slot, added}
                && (n == WORD - HDR ==> added == slot && headers == old(headers)[slot := Header(n, false, slot)])
    {
      hide Seg, Total, Stop, At;
      Begin();
      Here(memory, 0);
      if headers[freeList].size == 0 {
        return NULL;
      }
      var curr := Search(n);
      ghost var i := Stop(cells, n);
      Here(curr, i);
      if headers[curr].size == n {
        WholeFits(i, n);
        Placeable(i, n);
        Relinked(headers[curr := headers[curr].(free := false)], curr, i, n);
        cells := AllocatedCells(cells, n);
        headers := headers[curr := headers[curr].(free := false)];
        ptr := curr + HDR;
      } else if headers[curr].size > Wrap(n + HDR) {
        if !Overflows(cells, n) {
          Placeable(i, n);
          Relinked(headers[curr + n + HDR := Header(cells[i].size - n - HDR, true, headers[curr].next)]
                          [curr := Header(n, false, curr + n + HDR)], curr, i, n);
          cells := AllocatedCells(cells, n);
        }
        Split(curr, n);
        BothWritten(old(headers), headers, curr, Wrap(curr + n + HDR));
        ptr := curr + HDR;
      } else {
        ptr := NULL;
      }
    }

    /** A block of exactly n bytes leaves no room for n and a header to wrap around. */
    lemma WholeFits(i: nat, n: Word)
      requires Valid() && i < |cells| && cells[i].size == n
      ensures n + HDR < WORD
    {
      CellBelowTotal(cells, i);
    }

    // --------------------------------------------------------------- merge and free

    /** With the first k blocks done, joining goes on as it would on the rest alone. */
    static ghost predicate MergesTo(was: seq<Cell>, now: seq<Cell>, k: nat)
      requires was != [] && k < |now|
    {
      Merged(was) == var r := Merged(now[k..]); if r.None? then None else Some(now[..k] + r.value)
    }

    static function JoinedAt(cells: seq<Cell>, k: nat): seq<Cell>
      requires k + 1 < |cells|
    {
      cells[..k] + [Cell(cells[k].size + HDR + cells[k + 1].size, true)] + cells[k + 2..]
    }

    lemma JoinMerges(was: seq<Cell>, k: nat)
      requires was != [] && k + 1 < |cells| && MergesTo(was, cells, k) && cells[k].free && cells[k + 1].free
      ensures k + 2 == |cells| ==> Merged(was).None?
      ensures k + 2 < |cells| ==> MergesTo(was, JoinedAt(cells, k), k + 1)
    {
      var rest := cells[k..];
      assert rest[2..] == cells[k + 2..];
      var now := JoinedAt(cells, k);
      if k + 2 < |cells| {
        assert now[k + 1..] == cells[k + 2..];
        assert now[..k + 1] == cells[..k] + [now[k]];
        var r := Merged(cells[k + 2..]);
        assert r.Some? ==> now[..k + 1] + r.value == cells[..k] + ([now[k]] + r.value);
      }
    }

    lemma SkipMerges(was: seq<Cell>, k: nat)
      requires was != [] && k + 1 < |cells| && MergesTo(was, cells, k) && !(cells[k].free && cells[k + 1].free)
      ensures MergesTo(was, cells, k + 1)
    {
      var rest := cells[k..];
      assert rest[1..] == cells[k + 1..];
      assert cells[..k + 1] == cells[..k] + [cells[k]];
      var r := Merged(cells[k + 1..]);
      assert r.Some? ==> cells[..k + 1] + r.value == cells[..k] + ([cells[k]] + r.value);
    }

    lemma JoinLinks(h: Store, curr: nat, k: nat)
      requires At(curr, k) && k + 1 < |cells| && curr in headers && headers[curr].next in headers
      requires var size, next := cells[k].size + cells[k + 1].size + HDR, headers[headers[curr].next].next;
               h == headers[curr := Header(size, true, next)]
      ensures Seg(h, memory, JoinedAt(cells, k), NULL)
      ensures Total(JoinedAt(cells, k)) == heapSize
    {
      hide Seg, Total, At;
      Here(curr, k);
      Advance(curr, k);
      var next := headers[curr].next;
      Here(next, k + 1);
      OneCell(0, cells[k]);
      var both := Cell(cells[k].size + HDR + cells[k + 1].size, true);
      var front, back := cells[..k], cells[k + 2..];
      assert cells == front + [cells[k], cells[k + 1]] + back;
      TotalConcat(front, [cells[k]]);
      assert cells[..k + 1] == front + [cells[k]];
      SegTwo(headers, curr, cells[k], cells[k + 1]);
      TwoTotal(cells[k], cells[k + 1]);
      SegOne(h, curr, both);
      OneCell(0, both);
      SegReplace(headers, h, memory, front, [cells[k], cells[k + 1]], [both], back, headers[next].next);
      TotalConcat(front, [both]);
      TotalConcat(front + [both], back);
      TotalConcat(front, [cells[k], cells[k + 1]]);
      TotalConcat(front + [cells[k], cells[k + 1]], back);
    }

    static lemma MergesFromStart(cells: seq<Cell>)
      requires cells != []
      ensures MergesTo(cells, cells, 0)
    {
      assert cells[0..] == cells && cells[..0] == [];
      assert Merged(cells).Some? ==> [] + Merged(cells).value == Merged(cells).value;
    }

    static lemma MergesAtEnd(was: seq<Cell>, cells: seq<Cell>)
      requires was != [] && cells != [] && MergesTo(was, cells, |cells| - 1)
      ensures Merged(was) == Some(cells)
    {
      var k := |cells| - 1;
      assert cells[k..] == [cells[k]];
      assert cells[..k] + cells[k..] == cells;
    }

    lemma Landing(curr: nat, k: nat)
      requires Valid() && k < |cells| && curr == memory + Total(cells[..k])
      ensures At(curr, k)
    {
      assert cells == cells[..k] + cells[k..];
      SegSplit(headers, memory, cells[..k], cells[k..], NULL);
    }

    /** merge; the result is false when it reads through a null pointer. */
    method Merge() returns (ok: bool)
      requires Valid()
      modifies this`headers, this`cells
      ensures ok <==> Merged(old(cells)).Some?
      ensures ok ==> Valid() && cells == Merged(old(cells)).value
    {
      hide Seg, Total, At, MergesTo;
      Begin();
      Here(memory, 0);
      var curr := freeList;
      ghost var k := 0;
      assert MergesTo(cells, cells, 0) by {
        MergesFromStart(cells);
      }
      while headers[curr].next != NULL
        invariant At(curr, k) && k < |cells| && curr in headers
        invariant MergesTo(old(cells), cells, k)
        decreases |cells| - k
      {
        Here(curr, k);
        Advance(curr, k);
        var next := headers[curr].next;
        Here(next, k + 1);
        if headers[curr].free && headers[next].free {
          ghost var was := cells;
          JoinMerges(old(cells), k);
          ghost var size := cells[k].size + cells[k + 1].size + HDR;
          JoinLinks(headers[curr := Header(size, true, headers[next].next)], curr, k);
          headers := headers[curr := Header(headers[curr].size + headers[next].size + HDR, true, headers[next].next)];
          cells := JoinedAt(cells, k);
          assert cells[..k] == was[..k];
          Landing(curr, k);
        } else {
          SkipMerges(old(cells), k);
        }
        Here(curr, k);
        if k + 1 < |cells| {
          Advance(curr, k);
          Here(headers[curr].next, k + 1);
        }
        curr := headers[curr].next;
        if curr == NULL {
          return false;
        }
        k := k + 1;
      }
      Here(curr, k);
      MergesAtEnd(old(cells), cells);
      ok := true;
    }

    lemma OpenLinks(h: Store, curr: nat, i: nat)
      requires At(curr, i) && curr in headers && h == headers[curr := headers[curr].(free := true)]
      ensures var now := cells[i := cells[i].(free := true)];
              Seg(h, memory, now, NULL) && Total(now) == heapSize
    {
      hide Seg, Total, At;
      Here(curr, i);
      Middle(i);
      var front, back := cells[..i], cells[i + 1..];
      var c := cells[i].(free := true);
      SegOne(headers, curr, cells[i]);
      SegOne(h, curr, c);
      OneCell(0, cells[i]);
      OneCell(0, c);
      SegReplace(headers, h, memory, front, [cells[i]], [c], back, headers[curr].next);
      assert cells[i := c] == front + [c] + back;
      ReplaceCells(0, cells, i, [c]);
    }

    /** free, of a live pointer or of one outside the heap, which it ignores. */
    method Free(ptr: nat) returns (ok: bool)
      requires Valid()
      requires memory <= ptr <= memory + heapSize ==> ptr in LiveOf(memory, cells)
      modifies this`headers, this`cells
      ensures !(memory <= ptr <= memory + heapSize) ==> ok && Valid() && cells == old(cells)
      ensures memory <= ptr <= memory + heapSize ==>
                var merged := Merged(Freed(memory, old(cells), ptr));
                (ok <==> merged.Some?) && (ok ==> Valid() && cells == merged.value)
    {
      hide Seg, Total, At, Merged, Freed, LiveOf;
      if !(memory <= ptr <= memory + heapSize) {
        return true;
      }
      ghost var i := LiveIndex(memory, cells, ptr);
      var curr := ptr - HDR;
      Landing(curr, i);
      Here(curr, i);
      OpenLinks(headers[curr := headers[curr].(free := true)], curr, i);
      headers := headers[curr := headers[curr].(free := true)];
      cells := cells[i := cells[i].(free := true)];
      ok := Merge();
    }
  }
}
