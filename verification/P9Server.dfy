/** The 9P server's fid table and its reference-counted objects (devices/p9fs/p9core.cpp,
    qidobject.cpp, qidobject.hpp, trequests.cpp, rresponses.cpp). Objects live in a heap keyed by
    address, so that deleting one is visible. */
module P9Server {
  import opened Words
  import opened P9Paths

  /** The number of 32-bit fids, and the modulus of a reference count. */
  const FIDS: nat := 0x1_0000_0000

  const NO_FID: nat := 0xFFFF_FFFF

  datatype Kind = File | Dir | Other

  datatype Obj = Obj(path: string, kind: Kind, isOpen: bool, refs: nat)

  /** `pending` are the objects the walk responses still queued will delete, oldest response first;
      `abandoned` are objects whose request failed after creating them. */
  datatype Core = Core(
    root: string, share: string, fids: map<nat, nat>, heap: map<nat, Obj>, next: nat,
    pending: seq<set<nat>>, abandoned: set<nat>)

  /** A request, with what the host file system answers along the way; or the destruction of the
      oldest queued walk response. */
  datatype Event =
    | Attach(fid: nat, afid: nat, aname: string, kind: Kind)
    | Walk(fid: nat, newfid: nat, names: seq<string>, found: seq<Option<Kind>>)
    | Create(fid: nat, name: string, mode: nat, child: Option<Kind>, hostOpens: bool)
    | Open(fid: nat, mode: nat, hostOpens: bool)
    | Clunk(fid: nat)
    | Remove(fid: nat, unlinked: bool)
    | Respond

  // ------------------------------------------------------- table and objects

  function IncRef(o: Obj): Obj {
    o.(refs := if o.refs + 1 == FIDS then 0 else o.refs + 1)
  }

  function DecRef(o: Obj): Obj {
    o.(refs := if o.refs == 0 then FIDS - 1 else o.refs - 1)
  }

  /** `BindFid` on a free fid. Binding a deleted object leaves it deleted. */
  function Bind(c: Core, fid: nat, id: nat): Core {
    c.(fids := c.fids[fid := id], heap := if id in c.heap then c.heap[id := IncRef(c.heap[id])] else c.heap)
  }

  /** `RemoveFid`: the object goes with its last reference. */
  function Unbind(c: Core, fid: nat): Core
    requires fid in c.fids
  {
    var id := c.fids[fid];
    var c1 := c.(fids := c.fids - {fid});
    if id !in c.heap then c1
    else
      var o := DecRef(c.heap[id]);
      c1.(heap := if o.refs == 0 then c.heap - {id} else c.heap[id := o])
  }

  /** The next `n` addresses. */
  function NewIds(next: nat, n: nat): (ids: set<nat>)
    ensures forall i :: i in ids <==> next <= i < next + n
  {
    if n == 0 then {} else NewIds(next, n - 1) + {next + n - 1}
  }

  function Alloc(c: Core, objs: seq<Obj>): Core {
    c.(heap := map i | i in c.heap.Keys + NewIds(c.next, |objs|) ::
                 if c.next <= i < c.next + |objs| then objs[i - c.next] else c.heap[i],
       next := c.next + |objs|)
  }

  /** The objects the walk loop creates, up to the first name that does not resolve. */
  function Created(root: string, path: string, names: seq<string>, found: seq<Option<Kind>>): (objs: seq<Obj>)
    requires |names| == |found|
    ensures |objs| <= |names|
    decreases |names|
  {
    if names == [] || found[0].None? then []
    else
      var o := Obj(Next(path, root, names[0]), found[0].value, false, 0);
      [o] + Created(root, o.path, names[1..], found[1..])
  }

  /** `QidObject::Open`. */
  predicate CanOpen(o: Obj, mode: nat, hostOpens: bool) {
    !o.isOpen && (o.kind == Dir || (mode < 3 && hostOpens))
  }

  function SetOpened(c: Core, id: nat, isOpen: bool): Core {
    if id in c.heap then c.(heap := c.heap[id := c.heap[id].(isOpen := isOpen)]) else c
  }

  // ----------------------------------------------------------------- requests

  predicate WellFormed(c: Core, e: Event) {
    match e
    case Attach(fid, afid, _, _) => fid < FIDS && afid < FIDS
    case Walk(fid, newfid, names, found) => fid < FIDS && newfid < FIDS && |found| == |names|
    case Create(fid, _, _, _, _) => fid < FIDS
    case Open(fid, _, _) => fid < FIDS
    case Clunk(fid) => fid < FIDS
    case Remove(fid, _) => fid < FIDS
    case Respond => c.pending != []
  }

  function ExecAttach(c: Core, fid: nat, afid: nat, aname: string, kind: Kind): (Core, bool) {
    if afid != NO_FID then (c, false)
    else if aname != c.share then (c, false)
    else
      var c1 := Alloc(c, [Obj(c.root, kind, false, 0)]);
      if fid in c.fids then (c1.(heap := c1.heap - {c.next}), false)
      else (Bind(c1, fid, c.next), true)
  }

  /** The directory a request may walk or create in. */
  predicate BoundDir(c: Core, fid: nat) {
    fid in c.fids && c.fids[fid] in c.heap && c.heap[c.fids[fid]].kind == Dir
  }

  function ExecWalk(c: Core, fid: nat, newfid: nat, names: seq<string>, found: seq<Option<Kind>>): (Core, bool)
    requires |names| == |found|
  {
    if !AllLegal(names) || !BoundDir(c, fid) then (c, false)
    else
      var base := c.fids[fid];
      var objs := Created(c.root, c.heap[base].path, names, found);
      var c1 := Alloc(c, objs);
      if |objs| < |names| then (c1.(abandoned := c.abandoned + NewIds(c.next, |objs|)), false)
      else
        var c2 := if fid == newfid then Unbind(c1, fid) else c1;
        var last := if names == [] then base else c.next + |objs| - 1;
        if newfid in c2.fids then (c2.(abandoned := c.abandoned + NewIds(c.next, |objs|)), false)
        else (Bind(c2, newfid, last).(pending := c.pending + [NewIds(c.next, |objs|) - {last}]), true)
  }

  function ExecCreate(c: Core, fid: nat, name: string, mode: nat, child: Option<Kind>, hostOpens: bool): (Core, bool) {
    if !LegalName(name) || !BoundDir(c, fid) || child.None? then (c, false)
    else
      var o := Obj(Next(c.heap[c.fids[fid]].path, c.root, name), child.value, false, 0);
      if !CanOpen(o, mode, hostOpens) then (Alloc(c, [o]).(abandoned := c.abandoned + {c.next}), false)
      else (Bind(Unbind(Alloc(c, [o.(isOpen := true)]), fid), fid, c.next), true)
  }

  function ExecOpen(c: Core, fid: nat, mode: nat, hostOpens: bool): (Core, bool) {
    if fid !in c.fids || c.fids[fid] !in c.heap then (c, false)
    else
      var o := c.heap[c.fids[fid]];
      if o.kind != File || !CanOpen(o, mode, hostOpens) then (c, false)
      else (SetOpened(c, c.fids[fid], true), true)
  }

  function ExecClunk(c: Core, fid: nat): (Core, bool) {
    if fid !in c.fids || c.fids[fid] !in c.heap then (c, false)
    else (Unbind(SetOpened(c, c.fids[fid], false), fid), c.heap[c.fids[fid]].isOpen)
  }

  function ExecRemove(c: Core, fid: nat, unlinked: bool): (Core, bool) {
    if fid !in c.fids || c.fids[fid] !in c.heap then (c, false)
    else
      var c1 := SetOpened(c, c.fids[fid], false);
      if !unlinked then (c1, false) else (Unbind(c1, fid), true)
  }

  /** The state after a request and whether it succeeded. */
  function Execute(c: Core, e: Event): (Core, bool)
    requires WellFormed(c, e)
  {
    match e
    case Attach(fid, afid, aname, kind) => ExecAttach(c, fid, afid, aname, kind)
    case Walk(fid, newfid, names, found) => ExecWalk(c, fid, newfid, names, found)
    case Create(fid, name, mode, child, hostOpens) => ExecCreate(c, fid, name, mode, child, hostOpens)
    case Open(fid, mode, hostOpens) => ExecOpen(c, fid, mode, hostOpens)
    case Clunk(fid) => ExecClunk(c, fid)
    case Remove(fid, unlinked) => ExecRemove(c, fid, unlinked)
    case Respond => (c.(heap := c.heap - c.pending[0], pending := c.pending[1..]), true)
  }

  // ---------------------------------------------------------------- invariant

  ghost function Holders(fids: map<nat, nat>, id: nat): set<nat> {
    set f | f in fids && fids[f] == id
  }

  ghost function Queued(pending: seq<set<nat>>): set<nat> {
    if pending == [] then {} else pending[0] + Queued(pending[1..])
  }

  ghost predicate Separate(pending: seq<set<nat>>) {
    pending != [] ==> pending[0] !! Queued(pending[1..]) && Separate(pending[1..])
  }

  /** A 32-bit count of `n` references. */
  function Wrapped(n: nat): nat {
    if n == FIDS then 0 else n
  }

  /** Bound objects are live, and every object's count is the number of fids bound to it. */
  ghost predicate Counted(c: Core) {
    && (forall f :: f in c.fids ==> f < FIDS && c.fids[f] in c.heap)
    && (forall id :: id in c.heap ==> id < c.next && c.heap[id].refs == Wrapped(|Holders(c.fids, id)|))
  }

  /** Every object is in exactly one place: bound, waiting to be deleted with its response, abandoned,
      or (inside a request) loose. */
  ghost predicate Placed(c: Core, loose: set<nat>) {
    && Parts(c.heap.Keys, c.fids.Values, Queued(c.pending), c.abandoned, loose)
    && Separate(c.pending)
  }

  ghost predicate Parts(whole: set<nat>, a: set<nat>, b: set<nat>, c: set<nat>, d: set<nat>) {
    whole == a + b + c + d && a !! b !! c !! d
  }

  ghost predicate Accounted(c: Core, loose: set<nat>) {
    Counted(c) && Placed(c, loose)
  }

  /** Ownership between requests: nothing is loose. */
  ghost predicate Owned(c: Core) {
    Accounted(c, {})
  }

  /** Every object, bound or not, is at or below the root. */
  ghost predicate Contained(c: Core) {
    && Canonical(c.root)
    && forall id :: id in c.heap ==> Safe(c.root, c.heap[id].path)
  }

  // --------------------------------------------------------- counting holders

  lemma {:induction false} BoundedSet(s: set<nat>, n: nat)
    requires forall x :: x in s ==> x < n
    ensures |s| <= n
    decreases n
  {
    if n > 0 {
      BoundedSet(s - {n - 1}, n - 1);
      if n - 1 in s {
        assert |s - {n - 1}| == |s| - 1;
      } else {
        assert s - {n - 1} == s;
      }
    } else {
      assert s == {};
    }
  }

  lemma HoldersOnBind(fids: map<nat, nat>, fid: nat, id: nat, o: nat)
    requires fid !in fids
    ensures |Holders(fids[fid := id], o)| == |Holders(fids, o)| + if o == id then 1 else 0
  {
    if o == id {
      assert Holders(fids[fid := id], o) == Holders(fids, o) + {fid};
    } else {
      assert Holders(fids[fid := id], o) == Holders(fids, o);
    }
  }

  lemma HoldersOnUnbind(fids: map<nat, nat>, fid: nat, o: nat)
    requires fid in fids
    ensures |Holders(fids - {fid}, o)| + (if o == fids[fid] then 1 else 0) == |Holders(fids, o)|
  {
    if o == fids[fid] {
      assert Holders(fids, o) == Holders(fids - {fid}, o) + {fid};
    } else {
      assert Holders(fids - {fid}, o) == Holders(fids, o);
    }
  }

  lemma HoldersAtMostAll(fids: map<nat, nat>, o: nat)
    requires forall f :: f in fids ==> f < FIDS
    ensures |Holders(fids, o)| <= FIDS
  {
    BoundedSet(Holders(fids, o), FIDS);
  }

  lemma NoHolders(fids: map<nat, nat>, o: nat)
    requires o !in fids.Values
    ensures Holders(fids, o) == {}
  {
  }

  // ------------------------------------------------------- what each part keeps

  lemma AllocCounted(c: Core, objs: seq<Obj>)
    requires Counted(c) && forall i :: 0 <= i < |objs| ==> objs[i].refs == 0
    ensures Counted(Alloc(c, objs))
  {
    var c' := Alloc(c, objs);
    forall id | id in c'.heap
      ensures id < c'.next && c'.heap[id].refs == Wrapped(|Holders(c'.fids, id)|)
    {
      if id >= c.next {
        assert id !in c.fids.Values;
        NoHolders(c.fids, id);
      }
    }
  }

  lemma AllocKeeps(c: Core, objs: seq<Obj>)
    requires Accounted(c, {}) && forall i :: 0 <= i < |objs| ==> objs[i].refs == 0
    ensures Accounted(Alloc(c, objs), NewIds(c.next, |objs|))
  {
    AllocCounted(c, objs);
    assert c.heap.Keys !! NewIds(c.next, |objs|);
    hide Counted, Separate, Parts;
    assert Alloc(c, objs).heap.Keys == c.heap.Keys + NewIds(c.next, |objs|);
    PartsAdd(c.heap.Keys, c.fids.Values, Queued(c.pending), c.abandoned, NewIds(c.next, |objs|));
  }

  lemma PartsAdd(whole: set<nat>, a: set<nat>, b: set<nat>, c: set<nat>, d: set<nat>)
    requires Parts(whole, a, b, c, {}) && whole !! d
    ensures Parts(whole + d, a, b, c, d)
  {
  }

  lemma ValuesOnBind(fids: map<nat, nat>, fid: nat, id: nat)
    requires fid !in fids
    ensures fids[fid := id].Values == fids.Values + {id}
  {
    var fids' := fids[fid := id];
    forall v | v in fids.Values
      ensures v in fids'.Values
    {
      var f :| f in fids && fids[f] == v;
      assert fids'[f] == v;
    }
    assert fids'[fid] == id;
  }

  lemma BindCounted(c: Core, fid: nat, id: nat)
    requires Counted(c) && fid !in c.fids && fid < FIDS && id in c.heap
    ensures Counted(Bind(c, fid, id))
  {
    var c' := Bind(c, fid, id);
    forall o | o in c'.heap
      ensures o < c'.next && c'.heap[o].refs == Wrapped(|Holders(c'.fids, o)|)
    {
      HoldersOnBind(c.fids, fid, id, o);
      HoldersAtMostAll(c'.fids, o);
    }
  }

  lemma PartsMove(whole: set<nat>, a: set<nat>, b: set<nat>, c: set<nat>, d: set<nat>, id: nat)
    requires Parts(whole, a, b, c, d) && (id in d || id in a)
    ensures Parts(whole, a + {id}, b, c, d - {id})
  {
    assert (a + {id}) * b == {} && (a + {id} + b) * c == {} && (a + {id} + b + c) * (d - {id}) == {};
  }

  lemma BindKeeps(c: Core, fid: nat, id: nat, loose: set<nat>)
    requires Accounted(c, loose) && fid !in c.fids && fid < FIDS
    requires id in c.heap && (id in loose || id in c.fids.Values)
    ensures Accounted(Bind(c, fid, id), loose - {id})
  {
    hide Counted, Separate, Parts;
    BindCounted(c, fid, id);
    ValuesOnBind(c.fids, fid, id);
    assert Bind(c, fid, id).heap.Keys == c.heap.Keys;
    PartsMove(c.heap.Keys, c.fids.Values, Queued(c.pending), c.abandoned, loose, id);
  }

  lemma ValuesOnUnbind(fids: map<nat, nat>, fid: nat)
    requires fid in fids
    ensures (fids - {fid}).Values == if |Holders(fids, fids[fid])| == 1 then fids.Values - {fids[fid]} else fids.Values
  {
    var id := fids[fid];
    var fids' := fids - {fid};
    HoldersOnUnbind(fids, fid, id);
    forall v | v in fids.Values && v != id
      ensures v in fids'.Values
    {
      var f :| f in fids && fids[f] == v;
      assert fids'[f] == v;
    }
    if |Holders(fids', id)| > 0 {
      var f :| f in Holders(fids', id);
      assert fids'[f] == id;
      assert fids'.Values == fids.Values;
    } else {
      assert forall f :: f in fids' ==> f !in Holders(fids', id);
      assert id !in fids'.Values;
      assert fids'.Values == fids.Values - {id};
    }
  }

  lemma UnbindCounted(c: Core, fid: nat)
    requires Counted(c) && fid in c.fids
    ensures Counted(Unbind(c, fid))
    ensures Unbind(c, fid).heap.Keys ==
            if |Holders(c.fids, c.fids[fid])| == 1 then c.heap.Keys - {c.fids[fid]} else c.heap.Keys
  {
    var c' := Unbind(c, fid);
    var id := c.fids[fid];
    HoldersAtMostAll(c.fids, id);
    HoldersOnUnbind(c.fids, fid, id);
    assert c'.heap.Keys == if |Holders(c.fids, id)| == 1 then c.heap.Keys - {id} else c.heap.Keys;
    forall o | o in c'.heap
      ensures o < c'.next && c'.heap[o].refs == Wrapped(|Holders(c'.fids, o)|)
    {
      HoldersOnUnbind(c.fids, fid, o);
    }
    ValuesOnUnbind(c.fids, fid);
    forall f | f in c'.fids
      ensures f < FIDS && c'.fids[f] in c'.heap
    {
      assert c'.fids[f] in c'.fids.Values;
    }
  }

  lemma UnbindKeeps(c: Core, fid: nat, loose: set<nat>)
    requires Accounted(c, loose) && fid in c.fids
    ensures Accounted(Unbind(c, fid), loose)
    ensures c.fids[fid] in Unbind(c, fid).heap <==> |Holders(c.fids, c.fids[fid])| != 1
  {
    hide Counted, Separate, Parts;
    UnbindCounted(c, fid);
    ValuesOnUnbind(c.fids, fid);
    var id := c.fids[fid];
    assert id in c.fids.Values;
    PartsDrop(c.heap.Keys, c.fids.Values, Queued(c.pending), c.abandoned, loose, id);
    BoundLive(c, fid);
  }

  lemma BoundLive(c: Core, fid: nat)
    requires Counted(c) && fid in c.fids
    ensures c.fids[fid] in c.heap
  {
  }

  lemma PartsDrop(whole: set<nat>, a: set<nat>, b: set<nat>, c: set<nat>, d: set<nat>, id: nat)
    requires Parts(whole, a, b, c, d) && id in a
    ensures Parts(whole - {id}, a - {id}, b, c, d)
  {
  }

  // ------------------------------------------------------------- each request

  lemma PartsAbandon(whole: set<nat>, a: set<nat>, b: set<nat>, c: set<nat>, d: set<nat>)
    requires Parts(whole, a, b, c, d)
    ensures Parts(whole, a, b, c + d, {})
  {
    assert (a + b) * (c + d) == {};
  }

  lemma PartsQueue(whole: set<nat>, a: set<nat>, b: set<nat>, c: set<nat>, d: set<nat>)
    requires Parts(whole, a, b, c, d)
    ensures Parts(whole, a, b + d, c, {}) && b !! d
  {
    assert a * (b + d) == {} && (a + (b + d)) * c == {};
  }

  lemma AbandonKeeps(c: Core, loose: set<nat>)
    requires Accounted(c, loose)
    ensures Accounted(c.(abandoned := c.abandoned + loose), {})
  {
    var c' := c.(abandoned := c.abandoned + loose);
    assert Counted(c');
    PartsAbandon(c.heap.Keys, c.fids.Values, Queued(c.pending), c.abandoned, loose);
  }

  lemma {:induction false} QueuedSnoc(pending: seq<set<nat>>, s: set<nat>)
    ensures Queued(pending + [s]) == Queued(pending) + s
    ensures Separate(pending) && s !! Queued(pending) ==> Separate(pending + [s])
    decreases |pending|
  {
    if pending == [] {
      assert pending + [s] == [s];
    } else {
      QueuedSnoc(pending[1..], s);
      assert (pending + [s])[1..] == pending[1..] + [s];
    }
  }

  lemma EnqueueKeeps(c: Core, loose: set<nat>)
    requires Accounted(c, loose)
    ensures Accounted(c.(pending := c.pending + [loose]), {})
  {
    var c' := c.(pending := c.pending + [loose]);
    assert Counted(c');
    PartsQueue(c.heap.Keys, c.fids.Values, Queued(c.pending), c.abandoned, loose);
    QueuedSnoc(c.pending, loose);
  }

  /** A fresh object bound to a free fid. */
  lemma AttachKeeps(c: Core, fid: nat, afid: nat, aname: string, kind: Kind)
    requires Owned(c) && fid < FIDS && afid == NO_FID && aname == c.share && fid !in c.fids
    ensures Owned(ExecAttach(c, fid, afid, aname, kind).0)
  {
    hide Accounted;
    var o := Obj(c.root, kind, false, 0);
    var c1 := Alloc(c, [o]);
    AllocKeeps(c, [o]);
    assert NewIds(c.next, 1) == {c.next};
    BindKeeps(c1, fid, c.next, {c.next});
    assert {c.next} - {c.next} == {};
  }

  lemma AttachRefused(c: Core, fid: nat, afid: nat, aname: string, kind: Kind)
    requires Owned(c) && (afid != NO_FID || aname != c.share || fid in c.fids)
    ensures Owned(ExecAttach(c, fid, afid, aname, kind).0)
  {
    hide Accounted;
    var c' := ExecAttach(c, fid, afid, aname, kind).0;
    if c' != c {
      NextIsFree(c);
      assert NewIds(c.next, 1) == {c.next};
      assert c'.heap == c.heap;
      LaterIds(c, c');
    }
  }

  lemma NextIsFree(c: Core)
    requires Owned(c)
    ensures c.next !in c.heap
  {
  }

  /** Using up addresses changes nothing else. */
  lemma LaterIds(c: Core, c': Core)
    requires Owned(c) && c' == c.(next := c'.next) && c'.next >= c.next
    ensures Owned(c')
  {
    assert Counted(c');
  }

  lemma CreateOpens(c: Core, fid: nat, o: Obj)
    requires Owned(c) && fid < FIDS && fid in c.fids && o.refs == 0
    ensures Owned(Bind(Unbind(Alloc(c, [o]), fid), fid, c.next))
  {
    hide Accounted;
    var c1 := Alloc(c, [o]);
    assert NewIds(c.next, 1) == {c.next};
    AllocKeeps(c, [o]);
    UnbindKeeps(c1, fid, {c.next});
    var c2 := Unbind(c1, fid);
    assert c.next in c2.heap by {
      LooseLive(c2, {c.next});
    }
    BindKeeps(c2, fid, c.next, {c.next});
    assert {c.next} - {c.next} == {};
  }

  lemma LooseLive(c: Core, loose: set<nat>)
    requires Accounted(c, loose)
    ensures loose <= c.heap.Keys
  {
  }

  lemma CreateFails(c: Core, o: Obj)
    requires Owned(c) && o.refs == 0
    ensures Owned(Alloc(c, [o]).(abandoned := c.abandoned + {c.next}))
  {
    hide Accounted;
    assert NewIds(c.next, 1) == {c.next};
    AllocKeeps(c, [o]);
    AbandonKeeps(Alloc(c, [o]), {c.next});
  }

  lemma CreateKeeps(c: Core, fid: nat, name: string, mode: nat, child: Option<Kind>, hostOpens: bool)
    requires Owned(c) && fid < FIDS
    ensures Owned(ExecCreate(c, fid, name, mode, child, hostOpens).0)
  {
    hide Accounted, LegalName;
    if LegalName(name) && BoundDir(c, fid) && child.Some? {
      var o := Obj(Next(c.heap[c.fids[fid]].path, c.root, name), child.value, false, 0);
      CreateOpens(c, fid, o.(isOpen := true));
      CreateFails(c, o);
    }
  }

  /** Ownership only depends on the table, the counts and where objects are kept. */
  lemma AccountedFrame(c: Core, c': Core, loose: set<nat>)
    requires Accounted(c, loose) && c'.fids == c.fids && c'.next == c.next && c'.heap.Keys == c.heap.Keys
    requires c'.pending == c.pending && c'.abandoned == c.abandoned
    requires forall id :: id in c.heap ==> c'.heap[id].refs == c.heap[id].refs
    ensures Accounted(c', loose)
  {
    forall id | id in c'.heap
      ensures id < c'.next && c'.heap[id].refs == Wrapped(|Holders(c'.fids, id)|)
    {
      assert id in c.heap;
    }
  }

  lemma SetOpenedKeeps(c: Core, id: nat, isOpen: bool)
    requires Owned(c)
    ensures Owned(SetOpened(c, id, isOpen))
  {
    hide Accounted;
    var c' := SetOpened(c, id, isOpen);
    assert c'.heap.Keys == c.heap.Keys;
    AccountedFrame(c, c', {});
  }

  /** Destroying a walk response deletes live objects, and none that a fid holds. */
  lemma RespondKeeps(c: Core)
    requires Owned(c) && c.pending != []
    ensures var c' := Execute(c, Respond).0;
            Owned(c') && c.pending[0] !! c.fids.Values && c.pending[0] <= c.heap.Keys && c'.fids == c.fids
  {
    var c' := Execute(c, Respond).0;
    assert c.pending[0] <= Queued(c.pending);
    assert c'.heap.Keys == c.heap.Keys - c.pending[0];
    forall f | f in c'.fids
      ensures c'.fids[f] in c'.heap
    {
      assert c.fids[f] in c.fids.Values;
    }
    assert Counted(c');
    assert Queued(c.pending) - c.pending[0] == Queued(c'.pending);
    PartsDelete(c.heap.Keys, c.fids.Values, Queued(c.pending), c.abandoned, c.pending[0]);
  }

  lemma PartsDelete(whole: set<nat>, a: set<nat>, b: set<nat>, c: set<nat>, gone: set<nat>)
    requires Parts(whole, a, b, c, {}) && gone <= b
    ensures Parts(whole - gone, a, b - gone, c, {})
  {
    assert (a + (b - gone)) * c == {};
  }

  // ------------------------------------------------------------------- walking

  /** A walk of no names back onto its own fid, when that fid is the object's last. */
  ghost predicate ClonesLastOntoItself(c: Core, e: Event) {
    && e.Walk? && e.names == [] && e.fid == e.newfid && BoundDir(c, e.fid)
    && |Holders(c.fids, c.fids[e.fid])| == 1
  }

  lemma WalkBinds(c: Core, c2: Core, newfid: nat, last: nat, n: nat)
    requires Accounted(c2, NewIds(c.next, n)) && c2.pending == c.pending
    requires newfid !in c2.fids && newfid < FIDS && last in c2.heap
    requires last in NewIds(c.next, n) || last in c2.fids.Values
    ensures Owned(Bind(c2, newfid, last).(pending := c.pending + [NewIds(c.next, n) - {last}]))
  {
    hide Accounted;
    BindKeeps(c2, newfid, last, NewIds(c.next, n));
    EnqueueKeeps(Bind(c2, newfid, last), NewIds(c.next, n) - {last});
  }

  lemma {:induction false} CreatedUnheld(root: string, path: string, names: seq<string>, found: seq<Option<Kind>>)
    requires |names| == |found|
    ensures forall i :: 0 <= i < |Created(root, path, names, found)| ==> Created(root, path, names, found)[i].refs == 0
    decreases |names|
  {
    hide Next;
    if names != [] && found[0].Some? {
      CreatedUnheld(root, Next(path, root, names[0]), names[1..], found[1..]);
    }
  }

  /** The base of a walk survives the removal of its fid unless that fid was the last. */
  lemma BaseSurvives(c: Core, fid: nat, loose: set<nat>)
    requires Accounted(c, loose) && fid in c.fids && |Holders(c.fids, c.fids[fid])| != 1
    ensures c.fids[fid] in Unbind(c, fid).heap && c.fids[fid] in Unbind(c, fid).fids.Values
  {
    UnbindKeeps(c, fid, loose);
    ValuesOnUnbind(c.fids, fid);
    assert c.fids[fid] in c.fids.Values;
  }

  /** The last steps of a walk all of whose names resolved. */
  lemma WalkCompletes(c: Core, c1: Core, fid: nat, newfid: nat, n: nat)
    requires Accounted(c1, NewIds(c.next, n)) && c1.pending == c.pending && c1.abandoned == c.abandoned
    requires fid in c1.fids && newfid < FIDS
    requires n == 0 && fid == newfid ==> |Holders(c1.fids, c1.fids[fid])| != 1
    ensures var c2 := if fid == newfid then Unbind(c1, fid) else c1;
            var last := if n == 0 then c1.fids[fid] else c.next + n - 1;
            if newfid in c2.fids then Owned(c2.(abandoned := c.abandoned + NewIds(c.next, n)))
            else Owned(Bind(c2, newfid, last).(pending := c.pending + [NewIds(c.next, n) - {last}]))
  {
    hide Accounted;
    var c2 := if fid == newfid then Unbind(c1, fid) else c1;
    var last := if n == 0 then c1.fids[fid] else c.next + n - 1;
    UnbindKeeps(c1, fid, NewIds(c.next, n));
    if newfid in c2.fids {
      AbandonKeeps(c2, NewIds(c.next, n));
    } else {
      if n == 0 {
        if fid == newfid {
          BaseSurvives(c1, fid, NewIds(c.next, n));
        } else {
          assert last in c1.fids.Values;
          AccountedLive(c1, NewIds(c.next, n), fid);
        }
      } else {
        LooseLive(c2, NewIds(c.next, n));
      }
      WalkBinds(c, c2, newfid, last, n);
    }
  }

  lemma AccountedLive(c: Core, loose: set<nat>, fid: nat)
    requires Accounted(c, loose) && fid in c.fids
    ensures c.fids[fid] in c.heap
  {
  }

  lemma WalkKeeps(c: Core, fid: nat, newfid: nat, names: seq<string>, found: seq<Option<Kind>>)
    requires Owned(c) && |names| == |found| && newfid < FIDS
    requires !ClonesLastOntoItself(c, Walk(fid, newfid, names, found))
    ensures Owned(ExecWalk(c, fid, newfid, names, found).0)
  {
    hide Accounted, AllLegal, NewIds, Bind, Unbind;
    if AllLegal(names) && BoundDir(c, fid) {
      var path := c.heap[c.fids[fid]].path;
      var objs := Created(c.root, path, names, found);
      var c1 := Alloc(c, objs);
      CreatedUnheld(c.root, path, names, found);
      AllocKeeps(c, objs);
      if |objs| < |names| {
        AbandonKeeps(c1, NewIds(c.next, |objs|));
      } else {
        WalkCompletes(c, c1, fid, newfid, |objs|);
      }
    }
  }

  /** In the excluded case the table is left pointing at a deleted object. */
  lemma CloneLeavesDangling(c: Core, e: Event)
    requires Owned(c) && WellFormed(c, e) && ClonesLastOntoItself(c, e)
    ensures var c' := Execute(c, e).0;
            e.newfid in c'.fids && c'.fids[e.newfid] !in c'.heap && !Owned(c')
  {
    var base := c.fids[e.fid];
    var c1 := Alloc(c, []);
    assert AllLegal(e.names);
    AllocKeeps(c, []);
    UnbindKeeps(c1, e.fid, NewIds(c.next, 0));
    var c2 := Unbind(c1, e.fid);
    assert c1.fids == c.fids && base !in c2.heap;
  }

  /** The server after a first successful attach. */
  function Attached(root: string, share: string, f: nat, kind: Kind): Core {
    Core(root, share, map[f := 0], map[0 := Obj(root, kind, false, 1)], 1, [], {})
  }

  lemma FirstAttach(root: string, share: string, f: nat, kind: Kind)
    requires f < FIDS
    ensures Execute(Start(root, share), Attach(f, NO_FID, share, kind)) == (Attached(root, share, f, kind), true)
  {
    assert NewIds(0, 1) == {0};
    assert Execute(Start(root, share), Attach(f, NO_FID, share, kind)).0.heap == map[0 := Obj(root, kind, false, 1)];
  }

  /** A client reaches that case with its second request, with any fid. */
  lemma CloneReachable(root: string, share: string, f: nat)
    requires f < FIDS
    ensures var c0 := Start(root, share);
            var attach := Attach(f, NO_FID, share, Dir);
            && IsRun(c0, [attach]) && Execute(c0, attach).1
            && WellFormed(Execute(c0, attach).0, Walk(f, f, [], []))
            && ClonesLastOntoItself(Execute(c0, attach).0, Walk(f, f, [], []))
  {
    FirstAttach(root, share, f, Dir);
    var c1 := Attached(root, share, f, Dir);
    assert Holders(c1.fids, 0) == {f};
    assert IsRun(c1, []);
  }

  // ---------------------------------------------------------------------- runs

  /** One request, or one response destroyed: ownership survives, whatever the root, exactly when the
      request is not that walk. */
  lemma StepKeepsOwnership(c: Core, e: Event)
    requires Owned(c) && WellFormed(c, e)
    ensures Owned(Execute(c, e).0) <==> !ClonesLastOntoItself(c, e)
  {
    if ClonesLastOntoItself(c, e) {
      CloneLeavesDangling(c, e);
    } else {
      SafeStepKeepsOwnership(c, e);
    }
  }

  lemma SafeStepKeepsOwnership(c: Core, e: Event)
    requires Owned(c) && WellFormed(c, e) && !ClonesLastOntoItself(c, e)
    ensures Owned(Execute(c, e).0)
  {
    hide Owned, ExecWalk, ExecCreate, ExecAttach;
    match e
    case Attach(fid, afid, aname, kind) =>
      if afid == NO_FID && aname == c.share && fid !in c.fids {
        AttachKeeps(c, fid, afid, aname, kind);
      } else {
        AttachRefused(c, fid, afid, aname, kind);
      }
    case Walk(fid, newfid, names, found) => WalkKeeps(c, fid, newfid, names, found);
    case Create(fid, name, mode, child, hostOpens) => CreateKeeps(c, fid, name, mode, child, hostOpens);
    case Open(fid, mode, hostOpens) =>
      if fid in c.fids {
        SetOpenedKeeps(c, c.fids[fid], true);
      }
    case Clunk(fid) => CloseAndUnbind(c, fid);
    case Remove(fid, unlinked) => CloseAndUnbind(c, fid);
    case Respond => RespondKeeps(c);
  }

  lemma CloseAndUnbind(c: Core, fid: nat)
    requires Owned(c)
    ensures fid in c.fids ==>
      Owned(SetOpened(c, c.fids[fid], false)) && Owned(Unbind(SetOpened(c, c.fids[fid], false), fid))
  {
    hide Accounted;
    if fid in c.fids {
      SetOpenedKeeps(c, c.fids[fid], false);
      UnbindKeeps(SetOpened(c, c.fids[fid], false), fid, {});
    }
  }

  ghost predicate IsRun(c: Core, es: seq<Event>)
    decreases |es|
  {
    es == [] || (WellFormed(c, es[0]) && !ClonesLastOntoItself(c, es[0]) && IsRun(Execute(c, es[0]).0, es[1..]))
  }

  ghost function After(c: Core, es: seq<Event>): Core
    requires IsRun(c, es)
    decreases |es|
  {
    if es == [] then c else After(Execute(c, es[0]).0, es[1..])
  }

  function Start(root: string, share: string): Core {
    Core(root, share, map[], map[], 0, [], {})
  }

  lemma {:induction false} RunKeepsOwnership(c: Core, es: seq<Event>)
    requires Owned(c) && IsRun(c, es)
    ensures Owned(After(c, es))
    decreases |es|
  {
    hide Owned, Execute, ClonesLastOntoItself;
    if es != [] {
      SafeStepKeepsOwnership(c, es[0]);
      RunKeepsOwnership(Execute(c, es[0]).0, es[1..]);
    }
  }

  /** Over every run of requests, for every root: every bound object is live, its reference count is
      the number of fids bound to it, and no queued walk response will delete a bound object. */
  lemma FidTableOwnership(root: string, share: string, es: seq<Event>)
    requires IsRun(Start(root, share), es)
    ensures var c := After(Start(root, share), es);
            forall f :: f in c.fids ==>
              && c.fids[f] in c.heap
              && c.heap[c.fids[f]].refs == Wrapped(|Holders(c.fids, c.fids[f])|)
              && c.fids[f] !in Queued(c.pending)
  {
    var c0 := Start(root, share);
    assert Owned(c0);
    RunKeepsOwnership(c0, es);
    var c := After(c0, es);
    forall f | f in c.fids
      ensures c.fids[f] in c.heap && c.fids[f] !in Queued(c.pending)
    {
      assert c.fids[f] in c.fids.Values;
    }
  }

  /** A request that fails leaves the table as it was, except a clunk, which always frees its fid. */
  lemma FailureKeepsTable(c: Core, e: Event)
    requires Owned(c) && WellFormed(c, e) && !Execute(c, e).1
    ensures Execute(c, e).0.fids == if e.Clunk? then c.fids - {e.fid} else c.fids
  {
    hide Accounted, AllLegal, LegalName, Created, NewIds;
    if e.Clunk? {
      if e.fid in c.fids {
        AccountedLive(c, {}, e.fid);
      } else {
        assert c.fids - {e.fid} == c.fids;
      }
    }
  }

  // ------------------------------------------------------------ containment

  lemma AllocContained(c: Core, objs: seq<Obj>)
    requires Contained(c)
    requires forall i :: 0 <= i < |objs| ==> Safe(c.root, objs[i].path)
    ensures Contained(Alloc(c, objs))
  {
    hide Safe, Canonical;
  }

  lemma {:induction false} CreatedContained(root: string, path: string, names: seq<string>, found: seq<Option<Kind>>)
    requires |names| == |found| && AllLegal(names)
    requires Canonical(root) && Safe(root, path)
    ensures forall o :: o in Created(root, path, names, found) ==> o.refs == 0 && Safe(root, o.path)
    decreases |names|
  {
    hide Safe, Canonical, LegalName;
    if names != [] && found[0].Some? {
      NextIsSafe(path, root, names[0]);
      CreatedContained(root, Next(path, root, names[0]), names[1..], found[1..]);
    }
  }

  /** Containment only depends on the root and the paths of live objects. */
  lemma ContainedFrame(c: Core, c': Core)
    requires Contained(c) && c'.root == c.root
    requires forall id :: id in c'.heap ==> id in c.heap && c'.heap[id].path == c.heap[id].path
    ensures Contained(c')
  {
    hide Safe, Canonical;
  }

  lemma BindContained(c: Core, fid: nat, id: nat)
    requires Contained(c)
    ensures Contained(Bind(c, fid, id))
  {
    hide Contained;
    ContainedFrame(c, Bind(c, fid, id));
  }

  lemma UnbindContained(c: Core, fid: nat)
    requires Contained(c) && fid in c.fids
    ensures Contained(Unbind(c, fid))
  {
    hide Contained;
    ContainedFrame(c, Unbind(c, fid));
  }

  lemma CreateContained(c: Core, fid: nat, name: string, mode: nat, child: Option<Kind>, hostOpens: bool)
    requires Contained(c)
    ensures Contained(ExecCreate(c, fid, name, mode, child, hostOpens).0)
  {
    hide Safe, Canonical, LegalName, Next, Bind, Unbind;
    if LegalName(name) && BoundDir(c, fid) && child.Some? {
      var path := c.heap[c.fids[fid]].path;
      NextIsSafe(path, c.root, name);
      var shut := Obj(Next(path, c.root, name), child.value, false, 0);
      var o := shut.(isOpen := CanOpen(shut, mode, hostOpens));
      AllocContained(c, [o]);
      if o.isOpen {
        UnbindContained(Alloc(c, [o]), fid);
        BindContained(Unbind(Alloc(c, [o]), fid), fid, c.next);
      }
    }
  }

  lemma WalkContained(c: Core, fid: nat, newfid: nat, names: seq<string>, found: seq<Option<Kind>>)
    requires Contained(c) && |names| == |found|
    ensures Contained(ExecWalk(c, fid, newfid, names, found).0)
  {
    hide Safe, Canonical, AllLegal, Bind, Unbind, NewIds;
    if AllLegal(names) && BoundDir(c, fid) {
      var path := c.heap[c.fids[fid]].path;
      var objs := Created(c.root, path, names, found);
      CreatedContained(c.root, path, names, found);
      assert forall i :: 0 <= i < |objs| ==> objs[i] in objs;
      var c1 := Alloc(c, objs);
      AllocContained(c, objs);
      if |objs| == |names| {
        UnbindContained(c1, fid);
        var c2 := if fid == newfid then Unbind(c1, fid) else c1;
        BindContained(c2, newfid, if names == [] then c.fids[fid] else c.next + |objs| - 1);
      }
    }
  }

  lemma AttachContained(c: Core, fid: nat, afid: nat, aname: string, kind: Kind)
    requires Contained(c)
    ensures Contained(ExecAttach(c, fid, afid, aname, kind).0)
  {
    hide Safe, Canonical;
    RootIsSafe(c.root);
    var o := Obj(c.root, kind, false, 0);
    AllocContained(c, [o]);
    if afid == NO_FID && aname == c.share {
      ContainedFrame(Alloc(c, [o]), ExecAttach(c, fid, afid, aname, kind).0);
    }
  }

  /** No request, not even the walk that breaks ownership, brings in an object outside the root. */
  lemma StepKeepsContainment(c: Core, e: Event)
    requires Contained(c) && WellFormed(c, e)
    ensures Contained(Execute(c, e).0) && Execute(c, e).0.root == c.root
  {
    hide Contained, ExecWalk, ExecCreate, ExecAttach;
    RootKept(c, e);
    match e
    case Attach(fid, afid, aname, kind) => AttachContained(c, fid, afid, aname, kind);
    case Walk(fid, newfid, names, found) => WalkContained(c, fid, newfid, names, found);
    case Create(fid, name, mode, child, hostOpens) => CreateContained(c, fid, name, mode, child, hostOpens);
    case Open(_, _, _) => ContainedFrame(c, Execute(c, e).0);
    case Clunk(_) => ContainedFrame(c, Execute(c, e).0);
    case Remove(_, _) => ContainedFrame(c, Execute(c, e).0);
    case Respond => ContainedFrame(c, Execute(c, e).0);
  }

  lemma RootKept(c: Core, e: Event)
    requires WellFormed(c, e)
    ensures Execute(c, e).0.root == c.root
  {
  }

  lemma {:induction false} RunKeepsContainment(c: Core, es: seq<Event>)
    requires Contained(c) && IsRun(c, es)
    ensures Contained(After(c, es)) && After(c, es).root == c.root
    decreases |es|
  {
    hide Contained, Execute, ClonesLastOntoItself;
    if es != [] {
      StepKeepsContainment(c, es[0]);
      RunKeepsContainment(Execute(c, es[0]).0, es[1..]);
    }
  }

  /** Every object of the server leads to the root or below it. */
  ghost predicate AllWithin(c: Core) {
    forall id :: id in c.heap ==> Within(c.root, c.heap[id].path)
  }

  /** On a canonical root, whatever is requested, every object stays at or below it; unless the root is
      the root of the file system, its path is the root or begins with the root and a slash. */
  lemma ServerStaysWithin(root: string, share: string, es: seq<Event>)
    requires Canonical(root) && IsRun(Start(root, share), es)
    ensures var c := After(Start(root, share), es);
            && c.root == root && AllWithin(c)
            && (Resolved(root) != [] ==>
                  forall id :: id in c.heap ==> c.heap[id].path == root || root + "/" <= c.heap[id].path)
  {
    var c0 := Start(root, share);
    assert Contained(c0);
    RunKeepsContainment(c0, es);
    var c := After(c0, es);
    if Resolved(root) != [] {
      forall id | id in c.heap
        ensures c.heap[id].path == root || root + "/" <= c.heap[id].path
      {
        WithinAsPrefix(root, c.heap[id].path);
      }
    }
  }

  lemma DotDotObjects(root: string)
    ensures var objs := Created(root, root, [".", ".."], [Some(Dir), Some(Dir)]);
            |objs| == 2 && objs[1].path == P9Paths.Walk(root, root, [".", ".."])
  {
    hide Next;
    assert [".", ".."][1..] == [".."] && [Some(Dir), Some(Dir)][1..] == [Some(Dir)];
    assert [".."][1..] == [] && [Some(Dir)][1..] == [];
  }

  /** The walk ".", ".." from the attached root, bound to another fid. */
  lemma DotDotBound(root: string, share: string)
    ensures var c := Execute(Attached(root, share, 0, Dir), Event.Walk(0, 1, [".", ".."], [Some(Dir), Some(Dir)])).0;
            c.root == root && 2 in c.heap && c.heap[2].path == P9Paths.Walk(root, root, [".", ".."])
  {
    var c := Attached(root, share, 0, Dir);
    var objs := Created(root, root, [".", ".."], [Some(Dir), Some(Dir)]);
    DotDotObjects(root);
    DotsAreLegal();
    hide LegalName, Created, P9Paths.Walk;
    assert AllLegal([".", ".."]);
    assert Alloc(c, objs).heap[2] == objs[1];
  }

  lemma TwoRequests(c: Core, e: Event, f: Event)
    requires WellFormed(c, e) && !ClonesLastOntoItself(c, e)
    requires WellFormed(Execute(c, e).0, f) && !ClonesLastOntoItself(Execute(c, e).0, f)
    ensures IsRun(c, [e, f]) && After(c, [e, f]) == Execute(Execute(c, e).0, f).0
  {
    hide Execute, WellFormed, ClonesLastOntoItself;
    assert [e, f][1..] == [f] && [f][1..] == [];
    var c1 := Execute(c, e).0;
    assert IsRun(Execute(c1, f).0, []) && IsRun(c1, [f]);
    assert After(c1, [f]) == Execute(c1, f).0;
  }

  lemma DotDotRun(root: string, share: string)
    ensures var es := [Attach(0, NO_FID, share, Dir), Event.Walk(0, 1, [".", ".."], [Some(Dir), Some(Dir)])];
            && IsRun(Start(root, share), es)
            && var c := After(Start(root, share), es);
               c.root == root && 2 in c.heap && c.heap[2].path == P9Paths.Walk(root, root, [".", ".."])
  {
    hide Execute, P9Paths.Walk, IsRun, After;
    FirstAttach(root, share, 0, Dir);
    DotDotBound(root, share);
    TwoRequests(Start(root, share), Attach(0, NO_FID, share, Dir),
                Event.Walk(0, 1, [".", ".."], [Some(Dir), Some(Dir)]));
  }

  /** Over all runs, the server's objects stay at or below the root if and only if the configured root
      is canonical. */
  lemma ServerContainmentIff(root: string, share: string)
    requires Resolved(root) != []
    ensures (forall es :: IsRun(Start(root, share), es) ==> AllWithin(After(Start(root, share), es))) <==>
            Canonical(root)
  {
    if Canonical(root) {
      forall es | IsRun(Start(root, share), es)
        ensures AllWithin(After(Start(root, share), es))
      {
        ServerStaysWithin(root, share, es);
      }
    } else {
      UncanonicalRootEscapes(root);
      DotDotRun(root, share);
    }
  }

  // ------------------------------------------- responses destroyed by the other thread

  /** The two servers differ at most in objects that no fid holds. */
  ghost predicate SameBound(c: Core, d: Core) {
    && c.root == d.root && c.share == d.share && c.fids == d.fids && c.next == d.next
    && forall id :: id in c.fids.Values ==> id in c.heap && id in d.heap && c.heap[id] == d.heap[id]
  }

  lemma RespondUnseen(c: Core)
    requires Owned(c) && c.pending != []
    ensures SameBound(Execute(c, Respond).0, c)
  {
    RespondKeeps(c);
    forall id | id in c.fids.Values
      ensures id in c.heap && id !in c.pending[0]
    {
      var f :| f in c.fids && c.fids[f] == id;
      AccountedLive(c, {}, f);
    }
  }

  /** Allocation, binding and unbinding see only what is bound. */
  lemma BindSame(c: Core, d: Core, fid: nat, id: nat)
    requires SameBound(c, d) && id in c.heap && id in d.heap && c.heap[id] == d.heap[id] && fid !in c.fids
    ensures SameBound(Bind(c, fid, id), Bind(d, fid, id))
  {
    ValuesOnBind(c.fids, fid, id);
  }

  /** Unbinding a fid changes no object but its own. */
  lemma UnbindOthers(c: Core, fid: nat, id: nat)
    requires fid in c.fids && id in c.heap && id != c.fids[fid]
    ensures id in Unbind(c, fid).heap && Unbind(c, fid).heap[id] == c.heap[id]
  {
  }

  /** What becomes of the object of an unbound fid depends on that object alone. */
  lemma UnbindOwn(c: Core, d: Core, fid: nat)
    requires fid in c.fids && c.fids == d.fids && c.fids[fid] in c.heap && c.fids[fid] in d.heap
    requires c.heap[c.fids[fid]] == d.heap[c.fids[fid]] && c.fids[fid] in Unbind(c, fid).heap
    ensures c.fids[fid] in Unbind(d, fid).heap
    ensures Unbind(c, fid).heap[c.fids[fid]] == Unbind(d, fid).heap[c.fids[fid]]
  {
  }

  lemma UnbindSame(c: Core, d: Core, fid: nat)
    requires SameBound(c, d) && Counted(c) && fid in c.fids
    ensures SameBound(Unbind(c, fid), Unbind(d, fid))
  {
    var c', d' := Unbind(c, fid), Unbind(d, fid);
    UnbindCounted(c, fid);
    assert c.fids[fid] in c.fids.Values;
    forall id | id in c'.fids.Values
      ensures id in c'.heap && id in d'.heap && c'.heap[id] == d'.heap[id]
    {
      var f :| f in c'.fids && c'.fids[f] == id;
      assert c.fids[f] == id && id in c.fids.Values;
      BoundLive(c', f);
      hide Counted, Unbind;
      if id == c.fids[fid] {
        UnbindOwn(c, d, fid);
      } else {
        UnbindOthers(c, fid, id);
        UnbindOthers(d, fid, id);
      }
    }
  }

  lemma AllocSame(c: Core, d: Core, objs: seq<Obj>)
    requires SameBound(c, d)
    ensures SameBound(Alloc(c, objs), Alloc(d, objs))
    ensures forall i :: c.next <= i < c.next + |objs| ==>
              i in Alloc(c, objs).heap && i in Alloc(d, objs).heap && Alloc(c, objs).heap[i] == Alloc(d, objs).heap[i]
  {
  }

  lemma AllocUnbindSame(c: Core, d: Core, objs: seq<Obj>, fid: nat)
    requires SameBound(c, d) && Owned(c) && fid in c.fids
    requires forall i :: 0 <= i < |objs| ==> objs[i].refs == 0
    ensures var c1, d1 := Alloc(c, objs), Alloc(d, objs);
            var c2, d2 := Unbind(c1, fid), Unbind(d1, fid);
            && SameBound(c2, d2)
            && forall i :: c.next <= i < c.next + |objs| ==> i in c2.heap && i in d2.heap && c2.heap[i] == d2.heap[i]
  {
    var c1, d1 := Alloc(c, objs), Alloc(d, objs);
    AllocCounted(c, objs);
    BoundLive(c, fid);
    assert c.fids[fid] < c.next;
    hide Accounted, Unbind, Counted, Alloc;
    AllocFids(c, objs);
    AllocSame(c, d, objs);
    UnbindSame(c1, d1, fid);
    forall i | c.next <= i < c.next + |objs|
      ensures var c2, d2 := Unbind(c1, fid), Unbind(d1, fid);
              i in c2.heap && i in d2.heap && c2.heap[i] == d2.heap[i]
    {
      UnbindOthers(c1, fid, i);
      UnbindOthers(d1, fid, i);
    }
  }

  lemma AttachSame(c: Core, d: Core, fid: nat, afid: nat, aname: string, kind: Kind)
    requires SameBound(c, d) && Owned(c) && Owned(d)
    ensures var (c', ok) := ExecAttach(c, fid, afid, aname, kind);
            var (d', ok') := ExecAttach(d, fid, afid, aname, kind);
            ok == ok' && SameBound(c', d')
  {
    hide Accounted, Bind;
    var o := Obj(c.root, kind, false, 0);
    if afid == NO_FID && aname == c.share {
      if fid !in c.fids {
        hide Alloc;
        AllocSame(c, d, [o]);
        AllocFids(c, [o]);
        BindSame(Alloc(c, [o]), Alloc(d, [o]), fid, c.next);
      } else {
        NextIsFree(c);
        NextIsFree(d);
        AllocSame(c, d, [o]);
      }
    }
  }

  lemma CreateSame(c: Core, d: Core, fid: nat, name: string, mode: nat, child: Option<Kind>, hostOpens: bool)
    requires SameBound(c, d) && Owned(c) && Owned(d)
    ensures var (c', ok) := ExecCreate(c, fid, name, mode, child, hostOpens);
            var (d', ok') := ExecCreate(d, fid, name, mode, child, hostOpens);
            ok == ok' && SameBound(c', d')
  {
    hide LegalName, Next, Accounted, Unbind, Bind, Alloc;
    if fid in c.fids {
      assert c.fids[fid] in c.fids.Values;
      if LegalName(name) && BoundDir(c, fid) && child.Some? {
        var shut := Obj(Next(c.heap[c.fids[fid]].path, c.root, name), child.value, false, 0);
        var o := shut.(isOpen := CanOpen(shut, mode, hostOpens));
        AllocSame(c, d, [o]);
        if o.isOpen {
          AllocUnbindSame(c, d, [o], fid);
          AllocFids(c, [o]);
          UnbindFids(Alloc(c, [o]), fid);
          BindSame(Unbind(Alloc(c, [o]), fid), Unbind(Alloc(d, [o]), fid), fid, c.next);
        }
      }
    }
  }

  lemma UnbindFids(c: Core, fid: nat)
    requires fid in c.fids
    ensures Unbind(c, fid).fids == c.fids - {fid}
  {
  }

  lemma AllocFids(c: Core, objs: seq<Obj>)
    ensures Alloc(c, objs).fids == c.fids && Alloc(c, objs).next == c.next + |objs|
    ensures Alloc(c, objs).pending == c.pending && Alloc(c, objs).abandoned == c.abandoned
  {
  }

  lemma BindPending(c: Core, fid: nat, id: nat)
    ensures Bind(c, fid, id).pending == c.pending && Bind(c, fid, id).abandoned == c.abandoned
    ensures Bind(c, fid, id).next == c.next
  {
  }

  lemma UnbindPending(c: Core, fid: nat)
    requires fid in c.fids
    ensures Unbind(c, fid).pending == c.pending && Unbind(c, fid).abandoned == c.abandoned
    ensures Unbind(c, fid).next == c.next
  {
  }

  lemma WalkSame(c: Core, d: Core, fid: nat, newfid: nat, names: seq<string>, found: seq<Option<Kind>>)
    requires SameBound(c, d) && Owned(c) && Owned(d) && |names| == |found|
    requires !ClonesLastOntoItself(c, Event.Walk(fid, newfid, names, found))
    ensures var (c', ok) := ExecWalk(c, fid, newfid, names, found);
            var (d', ok') := ExecWalk(d, fid, newfid, names, found);
            ok == ok' && SameBound(c', d')
  {
    hide AllLegal, Created, Accounted, Unbind, Bind, Alloc, NewIds;
    if fid in c.fids {
      var base := c.fids[fid];
      assert base in c.fids.Values;
      if AllLegal(names) && BoundDir(c, fid) {
        var objs := Created(c.root, c.heap[base].path, names, found);
        CreatedUnheld(c.root, c.heap[base].path, names, found);
        AllocSame(c, d, objs);
        AllocFids(c, objs);
        AllocFids(d, objs);
        if |objs| == |names| {
          WalkBindsSame(c, d, fid, newfid, objs);
        }
      }
    }
  }

  lemma WalkBindsSame(c: Core, d: Core, fid: nat, newfid: nat, objs: seq<Obj>)
    requires SameBound(c, d) && Owned(c) && Owned(d) && fid in c.fids
    requires forall i :: 0 <= i < |objs| ==> objs[i].refs == 0
    requires objs == [] && fid == newfid ==> |Holders(c.fids, c.fids[fid])| != 1
    ensures var c1, d1 := Alloc(c, objs), Alloc(d, objs);
            var c2 := if fid == newfid then Unbind(c1, fid) else c1;
            var d2 := if fid == newfid then Unbind(d1, fid) else d1;
            var last := if objs == [] then c.fids[fid] else c.next + |objs| - 1;
            && SameBound(c2, d2)
            && (newfid !in c2.fids ==> SameBound(Bind(c2, newfid, last), Bind(d2, newfid, last)))
  {
    hide Accounted, Unbind, Bind, Alloc;
    var c1, d1 := Alloc(c, objs), Alloc(d, objs);
    AllocSame(c, d, objs);
    AllocFids(c, objs);
    AllocKeeps(c, objs);
    var c2 := if fid == newfid then Unbind(c1, fid) else c1;
    var d2 := if fid == newfid then Unbind(d1, fid) else d1;
    var last := if objs == [] then c.fids[fid] else c.next + |objs| - 1;
    AllocUnbindSame(c, d, objs, fid);
    assert c.fids[fid] in c.fids.Values;
    if objs == [] && fid == newfid {
      BaseSurvives(c1, fid, NewIds(c.next, |objs|));
    }
    if newfid !in c2.fids {
      BindSame(c2, d2, newfid, last);
    }
  }

  /** No request can tell whether a response has already been destroyed. */
  lemma RequestSame(c: Core, d: Core, e: Event)
    requires SameBound(c, d) && Owned(c) && Owned(d) && !e.Respond?
    requires WellFormed(c, e) && !ClonesLastOntoItself(c, e)
    ensures WellFormed(d, e) && !ClonesLastOntoItself(d, e)
    ensures Execute(c, e).1 == Execute(d, e).1 && SameBound(Execute(c, e).0, Execute(d, e).0)
  {
    hide ExecWalk, ExecCreate, ExecAttach, Accounted, Unbind;
    if !e.Respond? && e.fid in c.fids {
      assert c.fids[e.fid] in c.fids.Values;
    }
    match e
    case Attach(fid, afid, aname, kind) => AttachSame(c, d, fid, afid, aname, kind);
    case Walk(fid, newfid, names, found) => WalkSame(c, d, fid, newfid, names, found);
    case Create(fid, name, mode, child, hostOpens) => CreateSame(c, d, fid, name, mode, child, hostOpens);
    case Open(fid, mode, hostOpens) =>
    case Clunk(fid) => CloseSame(c, d, fid);
    case Remove(fid, unlinked) => CloseSame(c, d, fid);
  }

  lemma CloseSame(c: Core, d: Core, fid: nat)
    requires SameBound(c, d) && Owned(c) && Owned(d)
    ensures fid in c.fids ==>
              var c1, d1 := SetOpened(c, c.fids[fid], false), SetOpened(d, d.fids[fid], false);
              SameBound(c1, d1) && SameBound(Unbind(c1, fid), Unbind(d1, fid))
  {
    hide Accounted, Unbind;
    if fid in c.fids {
      assert c.fids[fid] in c.fids.Values;
      var c1, d1 := SetOpened(c, c.fids[fid], false), SetOpened(d, d.fids[fid], false);
      SetOpenedKeeps(c, c.fids[fid], false);
      SetOpenedKeeps(d, d.fids[fid], false);
      OwnedCounted(c1);
      OwnedCounted(d1);
      hide Counted;
      UnbindSame(c1, d1, fid);
    }
  }

  lemma OwnedCounted(c: Core)
    requires Owned(c)
    ensures Counted(c)
  {
  }

  function Requests(es: seq<Event>): seq<Event> {
    if es == [] then [] else (if es[0].Respond? then [] else [es[0]]) + Requests(es[1..])
  }

  /** The outcomes of the requests among the events. */
  ghost function Outcomes(c: Core, es: seq<Event>): seq<bool>
    requires IsRun(c, es)
    decreases |es|
  {
    if es == [] then []
    else (if es[0].Respond? then [] else [Execute(c, es[0]).1]) + Outcomes(Execute(c, es[0]).0, es[1..])
  }

  /** Destroying walk responses, at whatever moments the response thread does, changes no outcome and
      no entry of the table: the run of the requests alone ends with the same table. */
  lemma {:induction false} ResponsesUnseen(c: Core, d: Core, es: seq<Event>)
    requires SameBound(c, d) && Owned(c) && Owned(d) && IsRun(c, es)
    ensures IsRun(d, Requests(es))
    ensures SameBound(After(c, es), After(d, Requests(es)))
    ensures Outcomes(c, es) == Outcomes(d, Requests(es))
    decreases |es|
  {
    hide Accounted, Execute, SameBound, ClonesLastOntoItself, WellFormed;
    if es != [] {
      var e, rest := es[0], es[1..];
      SafeStepKeepsOwnership(c, e);
      if e.Respond? {
        NothingQueued(c, e);
        RespondUnseen(c);
        SameBoundSteps(Execute(c, e).0, c, d);
        ResponsesUnseen(Execute(c, e).0, d, rest);
        assert [] + Requests(rest) == Requests(rest);
        assert Outcomes(c, es) == [] + Outcomes(Execute(c, e).0, rest);
      } else {
        RequestSame(c, d, e);
        SafeStepKeepsOwnership(d, e);
        ResponsesUnseen(Execute(c, e).0, Execute(d, e).0, rest);
        assert ([e] + Requests(rest))[1..] == Requests(rest);
      }
    }
  }

  lemma NothingQueued(c: Core, e: Event)
    requires WellFormed(c, e) && e.Respond?
    ensures c.pending != []
  {
  }

  lemma SameBoundSteps(a: Core, b: Core, c: Core)
    requires SameBound(a, b) && SameBound(b, c)
    ensures SameBound(a, c)
  {
  }

  // ---------------------------------------------------------------- the server

  lemma AllocNone(c: Core)
    ensures Alloc(c, []) == c
  {
    assert Alloc(c, []).heap == c.heap;
  }

  lemma AllocSnoc(c: Core, objs: seq<Obj>, o: Obj)
    ensures Alloc(Alloc(c, objs), [o]) == Alloc(c, objs + [o])
  {
    var c1 := Alloc(c, objs);
    assert Alloc(c1, [o]).heap.Keys == Alloc(c, objs + [o]).heap.Keys;
    assert Alloc(c1, [o]).heap == Alloc(c, objs + [o]).heap;
  }

  lemma CreatedNone(root: string, path: string)
    ensures Created(root, path, [], []) == []
  {
  }

  lemma {:induction false} CreatedSnoc(root: string, path: string, names: seq<string>, found: seq<Option<Kind>>, k: nat)
    requires |names| == |found| && k < |names| && |Created(root, path, names[..k], found[..k])| == k
    ensures var objs := Created(root, path, names[..k], found[..k]);
            var at := if k == 0 then path else objs[k - 1].path;
            Created(root, path, names[..k + 1], found[..k + 1]) ==
            if found[k].None? then objs else objs + [Obj(Next(at, root, names[k]), found[k].value, false, 0)]
    decreases k
  {
    hide Next;
    if k > 0 {
      var o := Obj(Next(path, root, names[0]), found[0].value, false, 0);
      assert names[..k][1..] == names[1..][..k - 1] && found[..k][1..] == found[1..][..k - 1];
      assert names[..k + 1][1..] == names[1..][..k] && found[..k + 1][1..] == found[1..][..k];
      CreatedSnoc(root, o.path, names[1..], found[1..], k - 1);
    }
  }

  lemma {:induction false} CreatedStops(
    root: string, path: string, names: seq<string>, found: seq<Option<Kind>>, k: nat)
    requires |names| == |found| && k <= |names|
    requires |Created(root, path, names[..k], found[..k])| < k
    ensures Created(root, path, names, found) == Created(root, path, names[..k], found[..k])
    decreases k
  {
    hide Next;
    if found[0].Some? {
      assert names[..k][1..] == names[1..][..k - 1] && found[..k][1..] == found[1..][..k - 1];
      CreatedStops(root, Next(path, root, names[0]), names[1..], found[1..], k - 1);
    }
  }

  /** The table and the objects as mutable state. */
  class P9Core {
    const root: string
    const share: string
    var fids: map<nat, nat>
    var heap: map<nat, Obj>
    var next: nat
    var pending: seq<set<nat>>
    ghost var abandoned: set<nat>

    ghost function View(): Core
      reads this
    {
      Core(root, share, fids, heap, next, pending, abandoned)
    }

    constructor (root: string, share: string)
      ensures View() == Start(root, share)
    {
      this.root, this.share := root, share;
      fids, heap, next, pending := map[], map[], 0, [];
      abandoned := {};
    }

    /** Finds the object of a bound fid. As long as ownership holds, that object is live, it counts its
        fids, and no queued response is going to delete it. */
    method GetFid(fid: nat) returns (r: Option<nat>)
      ensures r.Some? <==> fid in fids
      ensures r.Some? ==> r.value == fids[fid]
      ensures r.Some? && Owned(View()) ==>
                && r.value in heap && heap[r.value].refs == Wrapped(|Holders(fids, r.value)|)
                && r.value !in Queued(pending)
    {
      if fid !in fids {
        return None;
      }
      assert fid in Holders(fids, fids[fid]) && fids[fid] in fids.Values;
      return Some(fids[fid]);
    }

    method BindFid(fid: nat, id: nat) returns (ok: bool)
      modifies this
      ensures ok == (fid !in old(fids))
      ensures View() == if ok then Bind(old(View()), fid, id) else old(View())
    {
      if fid in fids {
        return false;
      }
      if id in heap {
        heap := heap[id := IncRef(heap[id])];
      }
      fids := fids[fid := id];
      return true;
    }

    method RemoveFid(fid: nat)
      requires fid in fids
      modifies this
      ensures View() == Unbind(old(View()), fid)
    {
      var id := fids[fid];
      fids := fids - {fid};
      if id in heap {
        var o := DecRef(heap[id]);
        if o.refs == 0 {
          heap := heap - {id};
        } else {
          heap := heap[id := o];
        }
      }
    }

    method NewObject(path: string, kind: Kind) returns (id: nat)
      modifies this
      ensures id == old(next) && View() == Alloc(old(View()), [Obj(path, kind, false, 0)])
    {
      id := next;
      assert NewIds(next, 1) == {next};
      heap := heap[id := Obj(path, kind, false, 0)];
      next := next + 1;
      assert heap == Alloc(old(View()), [Obj(path, kind, false, 0)]).heap;
    }

    /** The loop of the walk: one object per name until one does not resolve. */
    method Traverse(path: string, names: seq<string>, found: seq<Option<Kind>>) returns (complete: bool)
      requires |names| == |found|
      modifies this
      ensures View() == Alloc(old(View()), Created(root, path, names, found))
      ensures complete == (|Created(root, path, names, found)| == |names|)
    {
      hide Created, Next, Alloc;
      assert names[..0] == [] && found[..0] == [];
      CreatedNone(root, path);
      var at := path;
      ghost var objs: seq<Obj> := [];
      AllocNone(View());
      for i := 0 to |names|
        invariant objs == Created(root, path, names[..i], found[..i]) && |objs| == i
        invariant at == if i == 0 then path else objs[i - 1].path
        invariant View() == Alloc(old(View()), objs)
      {
        CreatedSnoc(root, path, names, found, i);
        if found[i] == None {
          CreatedStops(root, path, names, found, i + 1);
          return false;
        }
        at := Next(at, root, names[i]);
        var id := NewObject(at, found[i].value);
        AllocSnoc(old(View()), objs, Obj(at, found[i].value, false, 0));
        objs := objs + [Obj(at, found[i].value, false, 0)];
      }
      assert names[..|names|] == names && found[..|names|] == found;
      return true;
    }

    method ExecuteWalk(fid: nat, newfid: nat, names: seq<string>, found: seq<Option<Kind>>) returns (ok: bool)
      requires |names| == |found|
      modifies this
      ensures (View(), ok) == ExecWalk(old(View()), fid, newfid, names, found)
    {
      hide AllLegal, Created, NewIds, Alloc, Bind, Unbind, Owned;
      if !AllLegal(names) {
        return false;
      }
      var dir := GetFid(fid);
      if dir == None || dir.value !in heap || heap[dir.value].kind != Dir {
        return false;
      }
      var base := dir.value;
      var first := next;
      ghost var c := View();
      var complete := Traverse(heap[base].path, names, found);
      ghost var objs := Created(root, c.heap[base].path, names, found);
      ghost var created := NewIds(c.next, |objs|);
      AllocFids(c, objs);
      ghost var c1 := View();
      if !complete {
        abandoned := abandoned + created;
        return false;
      }
      if fid == newfid {
        UnbindPending(c1, fid);
        RemoveFid(fid);
      }
      var last := if names == [] then base else next - 1;
      BindPending(View(), newfid, last);
      var bound := BindFid(newfid, last);
      if !bound {
        abandoned := abandoned + created;
        return false;
      }
      pending := pending + [NewIds(first, next - first) - {last}];
      return true;
    }

    /** `kind` is None if the share directory can no longer be examined; then creating its object throws,
        which nothing catches, before anything has changed. */
    method ExecuteAttach(fid: nat, afid: nat, aname: string, kind: Option<Kind>) returns (outcome: Option<bool>)
      modifies this
      ensures outcome.None? <==> afid == NO_FID && aname == share && kind.None?
      ensures outcome.None? ==> View() == old(View())
      ensures outcome.Some? ==>
                (View(), outcome.value) ==
                ExecAttach(old(View()), fid, afid, aname, if kind.Some? then kind.value else Other)
    {
      if afid != NO_FID {
        return Some(false);
      }
      if aname != share {
        return Some(false);
      }
      if kind == None {
        return None;
      }
      var id := NewObject(root, kind.value);
      var ok := BindFid(fid, id);
      if !ok {
        heap := heap - {id};
      }
      return Some(ok);
    }

    method ExecuteCreate(fid: nat, name: string, mode: nat, child: Option<Kind>, hostOpens: bool) returns (ok: bool)
      modifies this
      ensures (View(), ok) == ExecCreate(old(View()), fid, name, mode, child, hostOpens)
    {
      hide LegalName, Next;
      if !LegalName(name) {
        return false;
      }
      var dir := GetFid(fid);
      if dir == None || dir.value !in heap || heap[dir.value].kind != Dir || child == None {
        return false;
      }
      ghost var c := View();
      var path := Next(heap[dir.value].path, root, name);
      var id := NewObject(path, child.value);
      var o := Obj(path, child.value, false, 0);
      assert id in NewIds(c.next, 1) && heap[id] == o;
      if !CanOpen(o, mode, hostOpens) {
        abandoned := abandoned + {id};
        return false;
      }
      heap := heap[id := o.(isOpen := true)];
      assert View() == Alloc(c, [o.(isOpen := true)]) by {
        assert heap == Alloc(c, [o.(isOpen := true)]).heap;
      }
      RemoveFid(fid);
      ok := BindFid(fid, id);
    }

    method ExecuteOpen(fid: nat, mode: nat, hostOpens: bool) returns (ok: bool)
      modifies this
      ensures (View(), ok) == ExecOpen(old(View()), fid, mode, hostOpens)
    {
      var got := GetFid(fid);
      if got == None || got.value !in heap {
        return false;
      }
      var id := got.value;
      if heap[id].kind != File || !CanOpen(heap[id], mode, hostOpens) {
        return false;
      }
      heap := heap[id := heap[id].(isOpen := true)];
      return true;
    }

    method ExecuteRemove(fid: nat, unlinked: bool) returns (ok: bool)
      modifies this
      ensures (View(), ok) == ExecRemove(old(View()), fid, unlinked)
    {
      var got := GetFid(fid);
      if got == None || got.value !in heap {
        return false;
      }
      var id := got.value;
      heap := heap[id := heap[id].(isOpen := false)];
      if unlinked {
        RemoveFid(fid);
      }
      return unlinked;
    }

    method ExecuteClunk(fid: nat) returns (ok: bool)
      modifies this
      ensures (View(), ok) == ExecClunk(old(View()), fid)
    {
      var got := GetFid(fid);
      if got == None || got.value !in heap {
        return false;
      }
      var id := got.value;
      ok := heap[id].isOpen;
      heap := heap[id := heap[id].(isOpen := false)];
      RemoveFid(fid);
    }

    /** The destructor of the oldest queued walk response. */
    method DestroyResponse()
      requires pending != []
      modifies this
      ensures View() == Execute(old(View()), Respond).0
    {
      heap := heap - pending[0];
      pending := pending[1..];
    }
  }
}
