/** What each 9P request does to the names the client holds (devices/p9fs/trequests.cpp): which object its
    fid stands for afterwards, and that every other fid stands for what it did. */
module P9Effects {
  import opened Words
  import P9Paths
  import opened P9Server

  /** What a fid stands for. */
  datatype Thing = Thing(path: string, kind: Kind, isOpen: bool)

  function ThingOf(o: Obj): Thing {
    Thing(o.path, o.kind, o.isOpen)
  }

  function Seen(c: Core, f: nat): Option<Thing> {
    if f in c.fids && c.fids[f] in c.heap then Some(ThingOf(c.heap[c.fids[f]])) else None
  }

  /** Every fid but the given one is bound to the same object, which is as it was. */
  ghost predicate OthersKept(c: Core, c': Core, fid: nat) {
    && c'.fids - {fid} == c.fids - {fid}
    && forall f :: f != fid ==> Seen(c', f) == Seen(c, f)
  }

  lemma OthersKeptOn(c: Core, c1: Core, c2: Core, fid: nat)
    requires OthersKept(c, c1, fid) && OthersKept(c1, c2, fid)
    ensures OthersKept(c, c2, fid)
  {
  }

  lemma SelfKept(c: Core, fid: nat)
    ensures OthersKept(c, c, fid)
  {
  }

  lemma SameSeen(c: Core, c': Core, fid: nat)
    requires c'.fids == c.fids && forall f :: Seen(c', f) == Seen(c, f)
    ensures OthersKept(c, c', fid)
  {
  }

  /** What fids stand for depends on the table and the objects alone. */
  lemma LaterIdsKept(c: Core, c': Core, fid: nat)
    requires c'.fids == c.fids && c'.heap == c.heap
    ensures OthersKept(c, c', fid)
  {
  }

  // --------------------------------------------------------- the table operations

  /** Bound objects exist, and later addresses are free. */
  ghost predicate Live(c: Core) {
    && (forall f :: f in c.fids ==> c.fids[f] in c.heap)
    && (forall id :: id in c.heap ==> id < c.next)
  }

  lemma OwnedLive(c: Core)
    requires Owned(c)
    ensures Live(c)
  {
  }

  lemma AllocAt(c: Core, objs: seq<Obj>, id: nat)
    requires Live(c)
    ensures id in c.heap ==> id in Alloc(c, objs).heap && Alloc(c, objs).heap[id] == c.heap[id]
    ensures c.next <= id < c.next + |objs| ==>
              id !in c.heap && id in Alloc(c, objs).heap && Alloc(c, objs).heap[id] == objs[id - c.next]
    ensures id in Alloc(c, objs).heap ==> id in c.heap || c.next <= id < c.next + |objs|
  {
  }

  lemma AllocSeen(c: Core, objs: seq<Obj>, fid: nat)
    requires Live(c)
    ensures OthersKept(c, Alloc(c, objs), fid)
  {
    var c' := Alloc(c, objs);
    AllocFids(c, objs);
    hide Alloc;
    forall f | f != fid
      ensures Seen(c', f) == Seen(c, f)
    {
      if f in c.fids {
        AllocAt(c, objs, c.fids[f]);
      }
    }
  }

  lemma BindSeen(c: Core, fid: nat, id: nat)
    requires fid !in c.fids && id in c.heap
    ensures OthersKept(c, Bind(c, fid, id), fid)
    ensures Seen(Bind(c, fid, id), fid) == Some(ThingOf(c.heap[id]))
    ensures fid in Bind(c, fid, id).fids && Bind(c, fid, id).fids[fid] == id
    ensures Bind(c, fid, id).heap.Keys == c.heap.Keys
  {
    var c' := Bind(c, fid, id);
    assert c'.fids - {fid} == c.fids - {fid};
  }

  lemma UnbindSeen(c: Core, fid: nat)
    requires Counted(c) && fid in c.fids
    ensures OthersKept(c, Unbind(c, fid), fid) && fid !in Unbind(c, fid).fids
  {
    var c' := Unbind(c, fid);
    UnbindCounted(c, fid);
    forall f | f != fid
      ensures Seen(c', f) == Seen(c, f)
    {
      if f in c.fids {
        BoundLive(c, f);
        BoundLive(c', f);
      }
    }
  }

  // ------------------------------------------------------------------------- walk

  lemma {:induction false} CreatedAll(root: string, path: string, names: seq<string>, found: seq<Option<Kind>>)
    requires |names| == |found|
    ensures |Created(root, path, names, found)| == |names| <==> forall i :: 0 <= i < |found| ==> found[i].Some?
    decreases |names|
  {
    hide P9Paths.Next;
    if names != [] && found[0].Some? {
      CreatedAll(root, P9Paths.Next(path, root, names[0]), names[1..], found[1..]);
      assert forall i :: 1 <= i < |found| ==> found[i] == found[1..][i - 1];
    }
  }

  /** The object of the i-th name is where the first i names lead. */
  lemma {:induction false} CreatedAt(root: string, path: string, names: seq<string>, found: seq<Option<Kind>>, i: nat)
    requires |names| == |found| && i < |Created(root, path, names, found)|
    ensures found[i].Some?
    ensures Created(root, path, names, found)[i] ==
            Obj(P9Paths.Walk(path, root, names[..i + 1]), found[i].value, false, 0)
    decreases |names|
  {
    hide P9Paths.Next;
    var next := P9Paths.Next(path, root, names[0]);
    if i == 0 {
      assert names[..1][1..] == [];
    } else {
      CreatedAt(root, next, names[1..], found[1..], i - 1);
      assert names[..i + 1][1..] == names[1..][..i];
    }
  }

  lemma Dispatched(c: Core, fid: nat, newfid: nat, names: seq<string>, found: seq<Option<Kind>>)
    requires WellFormed(c, Walk(fid, newfid, names, found))
    ensures Execute(c, Walk(fid, newfid, names, found)) == ExecWalk(c, fid, newfid, names, found)
  {
    hide ExecWalk;
  }

  /** A walk succeeds exactly if its names are legal and all found, its fid is bound to a directory, and the
      new fid is free or the old one again. */
  lemma WalkSucceedsIff(c: Core, fid: nat, newfid: nat, names: seq<string>, found: seq<Option<Kind>>)
    requires WellFormed(c, Walk(fid, newfid, names, found))
    ensures Execute(c, Walk(fid, newfid, names, found)).1 <==>
            && P9Paths.AllLegal(names) && BoundDir(c, fid) && (newfid !in c.fids || newfid == fid)
            && forall i :: 0 <= i < |found| ==> found[i].Some?
  {
    hide P9Paths.AllLegal, Created, NewIds;
    if BoundDir(c, fid) {
      CreatedAll(c.root, c.heap[c.fids[fid]].path, names, found);
    }
  }

  /** The state of a successful walk before the new fid is bound. */
  function BeforeBind(c: Core, fid: nat, newfid: nat, objs: seq<Obj>): Core
    requires fid in c.fids
  {
    if fid == newfid then Unbind(Alloc(c, objs), fid) else Alloc(c, objs)
  }

  lemma BeforeBindSeen(c: Core, fid: nat, newfid: nat, objs: seq<Obj>)
    requires Owned(c) && fid in c.fids && (newfid !in c.fids || newfid == fid)
    requires forall i :: 0 <= i < |objs| ==> objs[i].refs == 0
    ensures var c2 := BeforeBind(c, fid, newfid, objs);
            && OthersKept(c, c2, newfid) && newfid !in c2.fids
            && c2.pending == c.pending && c2.abandoned == c.abandoned
  {
    var c1 := Alloc(c, objs);
    OwnedCounted(c);
    OwnedLive(c);
    AllocCounted(c, objs);
    hide Alloc, Accounted, Counted, Live, Unbind, OthersKept;
    AllocSeen(c, objs, newfid);
    AllocFids(c, objs);
    if fid == newfid {
      UnbindSeen(c1, fid);
      UnbindPending(c1, fid);
      OthersKeptOn(c, c1, Unbind(c1, fid), fid);
    }
  }

  lemma BeforeBindAt(c: Core, fid: nat, newfid: nat, objs: seq<Obj>, id: nat)
    requires Live(c) && fid in c.fids
    ensures var c2 := BeforeBind(c, fid, newfid, objs);
            && (c.next <= id < c.next + |objs| ==>
                  id !in c.heap && id in c2.heap && c2.heap[id] == objs[id - c.next])
            && (id in c2.heap && id !in c.heap ==> c.next <= id < c.next + |objs|)
  {
    AllocFids(c, objs);
    AllocAt(c, objs, id);
    var c1 := Alloc(c, objs);
    assert c.fids[fid] < c.next;
    hide Alloc;
    if fid == newfid && id in c1.heap && id != c.fids[fid] {
      UnbindOthers(c1, fid, id);
    }
  }

  lemma BeforeBindNew(c: Core, fid: nat, newfid: nat, objs: seq<Obj>)
    requires Live(c) && fid in c.fids
    ensures BeforeBind(c, fid, newfid, objs).heap.Keys - c.heap.Keys == NewIds(c.next, |objs|)
  {
    hide BeforeBind, Live;
    forall id: nat
      ensures id in BeforeBind(c, fid, newfid, objs).heap.Keys - c.heap.Keys <==> id in NewIds(c.next, |objs|)
    {
      BeforeBindAt(c, fid, newfid, objs, id);
    }
  }

  lemma WalkSteps(c: Core, fid: nat, newfid: nat, names: seq<string>, found: seq<Option<Kind>>)
    requires |names| == |found| && ExecWalk(c, fid, newfid, names, found).1
    ensures BoundDir(c, fid)
    ensures var objs := Created(c.root, c.heap[c.fids[fid]].path, names, found);
            var last := if names == [] then c.fids[fid] else c.next + |objs| - 1;
            ExecWalk(c, fid, newfid, names, found).0 ==
            Bind(BeforeBind(c, fid, newfid, objs), newfid, last).(
              pending := c.pending + [NewIds(c.next, |objs|) - {last}])
  {
    hide Created, NewIds, Alloc, Bind, Unbind;
  }

  /** An object that outlives one of its fids changes in its count alone. */
  lemma SurvivorSeen(c: Core, fid: nat)
    requires fid in c.fids && c.fids[fid] in c.heap && c.fids[fid] in Unbind(c, fid).heap
    ensures ThingOf(Unbind(c, fid).heap[c.fids[fid]]) == ThingOf(c.heap[c.fids[fid]])
  {
  }

  lemma BaseSeen(c: Core, fid: nat, newfid: nat)
    requires Owned(c) && BoundDir(c, fid)
    requires fid == newfid ==> |Holders(c.fids, c.fids[fid])| != 1
    ensures var c2 := BeforeBind(c, fid, newfid, []);
            c.fids[fid] in c2.heap && ThingOf(c2.heap[c.fids[fid]]) == ThingOf(c.heap[c.fids[fid]])
  {
    AllocNone(c);
    hide Alloc, Unbind, Accounted;
    if fid == newfid {
      BaseSurvives(c, fid, {});
      SurvivorSeen(c, fid);
    }
  }

  /** The object that a walk binds, and what is to be deleted with the response. */
  lemma WalkBinding(c: Core, c2: Core, newfid: nat, last: nat, ids: set<nat>)
    requires OthersKept(c, c2, newfid) && newfid !in c2.fids && last in c2.heap
    requires c2.pending == c.pending && c2.abandoned == c.abandoned && c2.heap.Keys - c.heap.Keys == ids
    ensures var c' := Bind(c2, newfid, last).(pending := c.pending + [ids - {last}]);
            && OthersKept(c, c', newfid) && newfid in c'.fids && c'.fids[newfid] == last
            && Seen(c', newfid) == Some(ThingOf(c2.heap[last]))
            && c'.pending == c.pending + [c'.heap.Keys - c.heap.Keys - {last}] && c'.abandoned == c.abandoned
  {
    BindSeen(c2, newfid, last);
    BindPending(c2, newfid, last);
    var c1 := Bind(c2, newfid, last);
    var c' := c1.(pending := c.pending + [ids - {last}]);
    hide Bind;
    OthersKeptOn(c, c2, c1, newfid);
    assert forall f :: Seen(c', f) == Seen(c1, f);
  }

  /** The last of the objects created for names that were all found. */
  lemma WalkLast(c: Core, fid: nat, newfid: nat, names: seq<string>, found: seq<Option<Kind>>)
    requires Live(c) && BoundDir(c, fid) && |names| == |found| && names != []
    requires forall i :: 0 <= i < |found| ==> found[i].Some?
    ensures var path := c.heap[c.fids[fid]].path;
            var c2 := BeforeBind(c, fid, newfid, Created(c.root, path, names, found));
            var last := c.next + |names| - 1;
            && |Created(c.root, path, names, found)| == |names| && last !in c.heap && last in c2.heap
            && ThingOf(c2.heap[last]) == Thing(P9Paths.Walk(path, c.root, names), found[|names| - 1].value, false)
  {
    var path := c.heap[c.fids[fid]].path;
    var objs := Created(c.root, path, names, found);
    hide Created, BeforeBind, P9Paths.Walk, Live;
    CreatedAll(c.root, path, names, found);
    BeforeBindAt(c, fid, newfid, objs, c.next + |names| - 1);
    CreatedAt(c.root, path, names, found, |names| - 1);
    assert names[..|names|] == names;
  }

  /** Afterwards the new fid stands for the object where the names lead, of the kind that was found there,
      and not open; or, without names, for the object of the old fid. Every other fid stands for what it
      did. The response will delete exactly the other objects that were created. */
  lemma WalkMeaning(c: Core, fid: nat, newfid: nat, names: seq<string>, found: seq<Option<Kind>>)
    requires Owned(c) && WellFormed(c, Walk(fid, newfid, names, found))
    requires Execute(c, Walk(fid, newfid, names, found)).1
    requires !ClonesLastOntoItself(c, Walk(fid, newfid, names, found))
    ensures var c' := Execute(c, Walk(fid, newfid, names, found)).0;
            && BoundDir(c, fid) && newfid in c'.fids
            && var base := c.heap[c.fids[fid]];
               && OthersKept(c, c', newfid)
               && (names == [] ==> c'.fids[newfid] == c.fids[fid] && Seen(c', newfid) == Some(ThingOf(base)))
               && (names != [] ==>
                     && c'.fids[newfid] !in c.heap && found[|names| - 1].Some?
                     && Seen(c', newfid) ==
                        Some(Thing(P9Paths.Walk(base.path, c.root, names), found[|names| - 1].value, false)))
               && c'.pending == c.pending + [c'.heap.Keys - c.heap.Keys - {c'.fids[newfid]}]
               && c'.abandoned == c.abandoned
  {
    hide Created, P9Paths.AllLegal, P9Paths.Walk, Execute, ExecWalk;
    hide Bind, BeforeBind, Accounted, OthersKept, Seen, NewIds;
    Dispatched(c, fid, newfid, names, found);
    WalkSucceedsIff(c, fid, newfid, names, found);
    WalkSteps(c, fid, newfid, names, found);
    OwnedLive(c);
    hide Live;
    var path := c.heap[c.fids[fid]].path;
    var objs := Created(c.root, path, names, found);
    CreatedUnheld(c.root, path, names, found);
    BeforeBindSeen(c, fid, newfid, objs);
    BeforeBindNew(c, fid, newfid, objs);
    if names == [] {
      BaseSeen(c, fid, newfid);
    } else {
      WalkLast(c, fid, newfid, names, found);
    }
    var last := if names == [] then c.fids[fid] else c.next + |objs| - 1;
    WalkBinding(c, BeforeBind(c, fid, newfid, objs), newfid, last, NewIds(c.next, |objs|));
  }

  /** Objects that are made and not bound. */
  lemma LeftOver(c: Core, objs: seq<Obj>)
    requires Live(c)
    ensures var c' := Alloc(c, objs).(abandoned := c.abandoned + NewIds(c.next, |objs|));
            && c'.fids == c.fids && (forall f :: Seen(c', f) == Seen(c, f)) && c'.pending == c.pending
            && c'.heap.Keys - c.heap.Keys == NewIds(c.next, |objs|)
  {
    var c' := Alloc(c, objs).(abandoned := c.abandoned + NewIds(c.next, |objs|));
    AllocFids(c, objs);
    hide Alloc;
    forall f
      ensures Seen(c', f) == Seen(c, f)
    {
      if f in c.fids {
        AllocAt(c, objs, c.fids[f]);
      }
    }
    forall id: nat
      ensures id in c'.heap.Keys - c.heap.Keys <==> id in NewIds(c.next, |objs|)
    {
      AllocAt(c, objs, id);
    }
  }

  /** A refused walk changes what no fid stands for; the objects it made before it failed are left over. */
  lemma WalkRefused(c: Core, fid: nat, newfid: nat, names: seq<string>, found: seq<Option<Kind>>)
    requires Owned(c) && WellFormed(c, Walk(fid, newfid, names, found))
    requires !Execute(c, Walk(fid, newfid, names, found)).1
    ensures var c' := Execute(c, Walk(fid, newfid, names, found)).0;
            && c'.fids == c.fids && (forall f :: Seen(c', f) == Seen(c, f)) && c'.pending == c.pending
            && c'.abandoned == c.abandoned + (c'.heap.Keys - c.heap.Keys)
  {
    hide Execute, Created, P9Paths.AllLegal, Accounted, NewIds, Alloc, Unbind, Live, Seen;
    Dispatched(c, fid, newfid, names, found);
    OwnedLive(c);
    if P9Paths.AllLegal(names) && BoundDir(c, fid) {
      var objs := Created(c.root, c.heap[c.fids[fid]].path, names, found);
      LeftOver(c, objs);
      UnbindFids(Alloc(c, objs), fid);
    } else {
      assert c.heap.Keys - c.heap.Keys == {};
    }
  }

  // ------------------------------------------------------------ the other requests

  /** An object made and deleted again leaves the heap as it was. */
  lemma AllocUndone(c: Core, o: Obj)
    requires Live(c)
    ensures Alloc(c, [o]).heap - {c.next} == c.heap
  {
    var heap := Alloc(c, [o]).heap;
    hide Alloc, Live;
    forall id: nat
      ensures id in heap && id != c.next <==> id in c.heap
      ensures id in c.heap ==> heap[id] == c.heap[id]
    {
      AllocAt(c, [o], id);
      AllocAt(c, [o], c.next);
    }
  }

  lemma AttachBinds(c: Core, fid: nat, o: Obj)
    requires Live(c) && fid !in c.fids
    ensures var c' := Bind(Alloc(c, [o]), fid, c.next);
            && OthersKept(c, c', fid) && c'.pending == c.pending && c'.abandoned == c.abandoned
            && Seen(c', fid) == Some(ThingOf(o))
  {
    hide Alloc, Bind, OthersKept, Live;
    var c1 := Alloc(c, [o]);
    AllocFids(c, [o]);
    AllocSeen(c, [o], fid);
    AllocAt(c, [o], c.next);
    BindSeen(c1, fid, c.next);
    BindPending(c1, fid, c.next);
    OthersKeptOn(c, c1, Bind(c1, fid, c.next), fid);
  }

  /** Attaching succeeds exactly with no authentication fid, the name of the share and a free fid, which then
      stands for the root, not open. A refused attach changes no object. */
  lemma AttachMeaning(c: Core, fid: nat, afid: nat, aname: string, kind: Kind)
    requires Owned(c)
    requires WellFormed(c, Attach(fid, afid, aname, kind))
    ensures var (c', ok) := Execute(c, Attach(fid, afid, aname, kind));
            && (ok <==> afid == NO_FID && aname == c.share && fid !in c.fids)
            && OthersKept(c, c', fid) && c'.pending == c.pending && c'.abandoned == c.abandoned
            && (ok ==> Seen(c', fid) == Some(Thing(c.root, kind, false)))
            && (!ok ==> c'.fids == c.fids && c'.heap == c.heap)
  {
    hide Accounted, Alloc, Bind, Live, OthersKept, Seen;
    OwnedLive(c);
    SelfKept(c, fid);
    var o := Obj(c.root, kind, false, 0);
    AllocFids(c, [o]);
    if fid !in c.fids {
      AttachBinds(c, fid, o);
    } else {
      AllocUndone(c, o);
      LaterIdsKept(c, Alloc(c, [o]).(heap := c.heap), fid);
    }
  }

  lemma CreateBinds(c: Core, fid: nat, o: Obj)
    requires Owned(c) && Live(c) && fid in c.fids && o.refs == 0
    ensures var c' := Bind(Unbind(Alloc(c, [o]), fid), fid, c.next);
            && OthersKept(c, c', fid) && c'.pending == c.pending && c'.abandoned == c.abandoned
            && fid in c'.fids && c'.fids[fid] == c.next && c.next !in c.heap
            && Seen(c', fid) == Some(ThingOf(o))
  {
    hide Accounted, Alloc, Bind, Unbind, OthersKept, Seen;
    var c2 := BeforeBind(c, fid, fid, [o]);
    BeforeBindSeen(c, fid, fid, [o]);
    BeforeBindAt(c, fid, fid, [o], c.next);
    BindSeen(c2, fid, c.next);
    BindPending(c2, fid, c.next);
    OthersKeptOn(c, c2, Bind(c2, fid, c.next), fid);
  }

  /** Creating succeeds exactly for a legal name in a directory, if the host creates the child and it can be
      opened as asked. Then the fid stands for the child, where the name leads from the directory, open. */
  lemma CreateMeaning(c: Core, fid: nat, name: string, mode: nat, child: Option<Kind>, hostOpens: bool)
    requires Owned(c)
    requires WellFormed(c, Create(fid, name, mode, child, hostOpens))
    ensures var (c', ok) := Execute(c, Create(fid, name, mode, child, hostOpens));
            && (ok <==> P9Paths.LegalName(name) && BoundDir(c, fid) && child.Some?
                        && (child.value == Dir || (mode < 3 && hostOpens)))
            && OthersKept(c, c', fid) && c'.pending == c.pending
            && (ok ==> c'.abandoned == c.abandoned && c'.fids[fid] !in c.heap
                       && Seen(c', fid) == Some(Thing(P9Paths.Next(c.heap[c.fids[fid]].path, c.root, name),
                                                      child.value, true)))
            && (!ok ==> c'.fids == c.fids && Seen(c', fid) == Seen(c, fid)
                        && c'.abandoned == c.abandoned + (c'.heap.Keys - c.heap.Keys))
  {
    hide Accounted, P9Paths.LegalName, P9Paths.Next, Bind, Unbind, Alloc, Live, OthersKept, Seen;
    OwnedLive(c);
    SelfKept(c, fid);
    if P9Paths.LegalName(name) && BoundDir(c, fid) && child.Some? {
      var o := Obj(P9Paths.Next(c.heap[c.fids[fid]].path, c.root, name), child.value, false, 0);
      CreateBinds(c, fid, o.(isOpen := true));
      LeftOver(c, [o]);
      assert NewIds(c.next, 1) == {c.next};
      SameSeen(c, Alloc(c, [o]).(abandoned := c.abandoned + {c.next}), fid);
    } else {
      assert c.heap.Keys - c.heap.Keys == {};
    }
  }

  /** Whether two fids are bound to one object. */
  predicate Shared(c: Core, f: nat, g: nat) {
    f in c.fids && g in c.fids && c.fids[f] == c.fids[g]
  }

  /** What the object of fid `f` looks like once that of `fid` is opened or closed. */
  function SeenWith(c: Core, fid: nat, isOpen: bool, f: nat): Option<Thing> {
    if Shared(c, f, fid) && Seen(c, f).Some? then Some(Seen(c, f).value.(isOpen := isOpen)) else Seen(c, f)
  }

  /** Opening succeeds exactly on a file that is not open, with a mode below 3 that the host accepts. It
      opens the object for every fid that shares it, and changes nothing else. */
  lemma OpenMeaning(c: Core, fid: nat, mode: nat, hostOpens: bool)
    requires WellFormed(c, Open(fid, mode, hostOpens))
    ensures var (c', ok) := Execute(c, Open(fid, mode, hostOpens));
            && (ok <==> && Seen(c, fid).Some? && Seen(c, fid).value.kind == File && !Seen(c, fid).value.isOpen
                        && mode < 3 && hostOpens)
            && c'.fids == c.fids && c'.pending == c.pending && c'.abandoned == c.abandoned
            && (ok ==> forall f :: Seen(c', f) == SeenWith(c, fid, true, f))
            && (!ok ==> c' == c)
  {
  }

  lemma OtherHolder(c: Core, fid: nat)
    requires fid in c.fids
    ensures |Holders(c.fids, c.fids[fid])| != 1 <==> exists f :: f != fid && Shared(c, f, fid)
  {
    var all := Holders(c.fids, c.fids[fid]);
    assert fid in all;
    if f :| f != fid && Shared(c, f, fid) {
      assert |all - {fid}| == |all| - 1 && f in all - {fid};
    } else {
      forall f | f in all
        ensures f == fid
      {
        assert Shared(c, f, fid);
      }
      assert all == {fid};
    }
  }

  lemma OtherKept(c: Core, c': Core, fid: nat, f: nat)
    requires OthersKept(c, c', fid) && f != fid
    ensures Seen(c', f) == Seen(c, f)
  {
  }

  lemma Closed(c: Core, fid: nat)
    requires fid in c.fids && c.fids[fid] in c.heap
    ensures var c' := SetOpened(c, c.fids[fid], false);
            && c'.fids == c.fids && c'.pending == c.pending && c'.abandoned == c.abandoned
            && c'.heap.Keys == c.heap.Keys && forall f :: Seen(c', f) == SeenWith(c, fid, false, f)
  {
  }

  /** Closing an object and letting go of one of its fids: for the others it is closed; it is deleted exactly
      if there are none. */
  lemma Released(c: Core, fid: nat)
    requires Owned(c) && fid in c.fids && c.fids[fid] in c.heap
    ensures var id := c.fids[fid];
            var c' := Unbind(SetOpened(c, id, false), fid);
            && c'.fids == c.fids - {fid} && c'.pending == c.pending && c'.abandoned == c.abandoned
            && (forall f :: f != fid ==> Seen(c', f) == SeenWith(c, fid, false, f))
            && (id in c'.heap <==> exists f :: f != fid && Shared(c, f, fid))
  {
    hide SetOpened, Unbind, Accounted, Seen, OthersKept;
    var id := c.fids[fid];
    var c1 := SetOpened(c, id, false);
    SetOpenedKeeps(c, id, false);
    Closed(c, fid);
    OwnedCounted(c1);
    UnbindSeen(c1, fid);
    UnbindFids(c1, fid);
    UnbindPending(c1, fid);
    UnbindKeeps(c1, fid, {});
    OtherHolder(c, fid);
    forall f | f != fid
      ensures Seen(Unbind(c1, fid), f) == SeenWith(c, fid, false, f)
    {
      OtherKept(c1, Unbind(c1, fid), fid, f);
    }
  }

  /** Clunking a bound fid always frees it; it reports success exactly if the object was open. */
  lemma ClunkMeaning(c: Core, fid: nat)
    requires Owned(c)
    requires WellFormed(c, Clunk(fid))
    ensures var (c', ok) := Execute(c, Clunk(fid));
            && (ok <==> Seen(c, fid).Some? && Seen(c, fid).value.isOpen)
            && (fid !in c.fids ==> c' == c)
            && (fid in c.fids ==>
                  && c'.fids == c.fids - {fid} && c'.pending == c.pending && c'.abandoned == c.abandoned
                  && (forall f :: f != fid ==> Seen(c', f) == SeenWith(c, fid, false, f))
                  && (c.fids[fid] in c'.heap <==> exists f :: f != fid && Shared(c, f, fid)))
  {
    hide Accounted, Unbind, SetOpened, SeenWith, Shared;
    if fid in c.fids {
      AccountedLive(c, {}, fid);
      Released(c, fid);
    }
  }

  /** Removing closes the object; the fid goes exactly if the host unlinked the file. */
  lemma RemoveMeaning(c: Core, fid: nat, unlinked: bool)
    requires Owned(c)
    requires WellFormed(c, Remove(fid, unlinked))
    ensures var (c', ok) := Execute(c, Remove(fid, unlinked));
            && (ok <==> fid in c.fids && unlinked)
            && (fid !in c.fids ==> c' == c)
            && (fid in c.fids ==>
                  && c'.fids == (if unlinked then c.fids - {fid} else c.fids)
                  && c'.pending == c.pending && c'.abandoned == c.abandoned
                  && (forall f :: f != fid || !unlinked ==> Seen(c', f) == SeenWith(c, fid, false, f))
                  && (c.fids[fid] in c'.heap <==> !unlinked || exists f :: f != fid && Shared(c, f, fid)))
  {
    hide Accounted, Unbind, SetOpened, Seen, SeenWith, Shared;
    if fid in c.fids {
      AccountedLive(c, {}, fid);
      Closed(c, fid);
      Released(c, fid);
    }
  }
}
