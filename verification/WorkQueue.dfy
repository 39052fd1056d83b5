/** The device thread pool's work list: doubly linked, appended at the tail, taken from the head. */
module WorkQueue {
  import opened Words

  type Data = seq<Byte>

  class Work {
    const data: Data
    var flink: Work?
    var blink: Work?

    constructor (data: Data)
      ensures this.data == data && flink == null && blink == null
    {
      this.data := data;
      flink, blink := null, null;
    }
  }

  ghost function NodeAt(nodes: seq<Work>, i: int): Work? {
    if 0 <= i < |nodes| then nodes[i] else null
  }

  ghost predicate Between(nodes: seq<Work>, i: nat)
    requires i < |nodes|
    reads nodes
  {
    nodes[i].flink == NodeAt(nodes, i + 1) && nodes[i].blink == NodeAt(nodes, i - 1)
  }

  /** The first n nodes met when following flink from w. */
  ghost function Forward(w: Work?, n: nat, among: seq<Work>): seq<Work>
    reads among
  {
    if n == 0 || w == null || w !in among then [] else [w] + Forward(w.flink, n - 1, among)
  }

  /** The first n nodes met when following blink from w, in the opposite order. */
  ghost function Backward(w: Work?, n: nat, among: seq<Work>): seq<Work>
    reads among
  {
    if n == 0 || w == null || w !in among then [] else Backward(w.blink, n - 1, among) + [w]
  }

  class Queue {
    var len: nat
    var flink: Work?
    var blink: Work?
    ghost var nodes: seq<Work>
    ghost var queued: seq<Data>      // everything ever queued
    ghost var taken: seq<Data>       // everything ever dequeued

    ghost predicate Linked()
      reads this, nodes
    {
      && len == |nodes|
      && flink == NodeAt(nodes, 0)
      && blink == NodeAt(nodes, |nodes| - 1)
      && (forall i :: 0 <= i < |nodes| ==> Between(nodes, i))
      && (forall i, j :: 0 <= i < j < |nodes| ==> nodes[i] != nodes[j])
    }

    ghost function Items(): seq<Data>
      reads this
    {
      seq(|nodes|, i requires 0 <= i < |nodes| reads this => nodes[i].data)
    }

    /** The list is well linked, and everything queued was taken, in order, or is still in the list. */
    ghost predicate Valid()
      reads this, nodes
    {
      Linked() && queued == taken + Items()
    }

    constructor ()
      ensures Valid() && Items() == [] && queued == [] && taken == []
    {
      len, flink, blink := 0, null, null;
      nodes, queued, taken := [], [], [];
    }

    /** `memory` tells whether calloc succeeds. */
    method QueueWork(data: Data, memory: bool) returns (ok: bool)
      requires Valid()
      modifies this, nodes
      ensures Valid() && fresh(set n | n in nodes && n !in old(nodes))
      ensures ok == memory
      ensures Items() == (if ok then old(Items()) + [data] else old(Items()))
      ensures queued == (if ok then old(queued) + [data] else old(queued)) && taken == old(taken)
    {
      if !memory {
        return false;
      }
      var work := new Work(data);
      work.blink := blink;
      if blink != null {
        blink.flink := work;
      }
      if flink == null {
        flink := work;
      }
      len := len + 1;
      blink := work;
      ghost var before := nodes;
      nodes := nodes + [work];
      queued := queued + [data];
      forall i | 0 <= i < |nodes|
        ensures Between(nodes, i)
      {
        if i < |before| {
          assert old(Between(before, i));
        }
      }
      assert Items() == old(Items()) + [data];
      return true;
    }

    method DequeueWorkUnlocked() returns (work: Work)
      requires Valid() && len > 0
      modifies this, nodes
      ensures Valid() && fresh(set n | n in nodes && n !in old(nodes))
      ensures [work.data] + Items() == old(Items())
      ensures taken == old(taken) + [work.data] && queued == old(queued)
      ensures work !in nodes && work.flink == null && work.blink == null
    {
      assert Between(nodes, 0);
      assert len > 1 ==> Between(nodes, 1);
      work := flink;
      if work.flink != null {
        work.flink.blink := null;
      }
      flink := work.flink;
      if blink == work {
        blink := null;
      }
      len := len - 1;
      work.flink := null;
      ghost var before := nodes;
      nodes := nodes[1..];
      taken := taken + [work.data];
      forall i | 0 <= i < |nodes|
        ensures Between(nodes, i)
      {
        assert old(Between(before, i + 1));
      }
      assert [work.data] + Items() == old(Items());
    }

    /** One round of a worker thread: it waits while the queue is empty. */
    method TakeWork() returns (data: Option<Data>)
      requires Valid()
      modifies this, nodes
      ensures Valid()
      ensures data.None? <==> old(Items()) == []
      ensures data.None? ==> Items() == [] && taken == old(taken)
      ensures data.Some? ==> [data.value] + Items() == old(Items()) && taken == old(taken) + [data.value]
      ensures queued == old(queued)
    {
      if len == 0 {
        return None;
      }
      var work := DequeueWorkUnlocked();
      data := Some(work.data);
    }

    lemma {:induction false} ForwardFrom(k: nat)
      requires Linked() && k <= |nodes|
      ensures Forward(NodeAt(nodes, k), |nodes| - k, nodes) == nodes[k..]
      decreases |nodes| - k
    {
      if k < |nodes| {
        assert Between(nodes, k);
        ForwardFrom(k + 1);
        assert nodes[k..] == [nodes[k]] + nodes[k + 1..];
      }
    }

    lemma {:induction false} BackwardFrom(k: nat)
      requires Linked() && k <= |nodes|
      ensures Backward(NodeAt(nodes, k - 1), k, nodes) == nodes[..k]
    {
      if k > 0 {
        assert Between(nodes, k - 1);
        BackwardFrom(k - 1);
        assert nodes[..k] == nodes[..k - 1] + [nodes[k - 1]];
      }
    }

    /** The forward chain, the reversed backward chain and len describe the same list, and both chains
        end after len nodes. */
    lemma ChainsAgree()
      requires Linked()
      ensures Forward(flink, len, nodes) == Backward(blink, len, nodes) == nodes
      ensures |nodes| == len
      ensures len > 0 ==> nodes[len - 1].flink == null && nodes[0].blink == null
      ensures len == 0 ==> flink == null && blink == null
    {
      ForwardFrom(0);
      BackwardFrom(|nodes|);
      assert len > 0 ==> Between(nodes, 0) && Between(nodes, len - 1);
    }
  }
}
