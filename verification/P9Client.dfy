/** What a guest gets for the bytes of a request: the wire format, the dispatch and the fid table together,
    one request at a time. */
module P9Client {
  import opened Words
  import P9Paths
  import P9Wire
  import P9Server
  import opened P9Effects
  import opened P9EndToEnd

  type Core = P9Server.Core

  /** The server's state and its reply after a packet. */
  function Served(core: Core, packet: Packet): (Core, Option<Reply>) {
    var job := Parse(packet);
    if job.None? then (core, None) else Process(core, job.value)
  }

  lemma ServedAs(core: Core, packet: Packet, job: Job)
    requires EncodesOne(packet, job) && EventOf(job).Some?
    ensures P9Server.WellFormed(core, EventOf(job).value)
    ensures var (core', ok) := P9Server.Execute(core, EventOf(job).value);
            Served(core, packet) == (core', Some(Reply(job.tag, ok, ok && EventOf(job).value.Walk?)))
  {
    hide P9Server.Execute, EncodesOne;
    ParsesBack(packet, job);
    SentFits(packet, job);
    WellFormedEvent(job, core);
  }

  lemma SentFits(packet: Packet, job: Job)
    requires EncodesOne(packet, job)
    ensures P9Wire.Fits(job.request)
  {
  }

  lemma AttachServed(core: Core, packet: Packet, job: Job)
    requires EncodesOne(packet, job) && job.request.TAttach? && P9Server.Owned(core)
    ensures var (core', reply) := Served(core, packet);
            var r := job.request;
            var ok := r.afid == P9Server.NO_FID && Text(r.aname) == core.share && r.fid !in core.fids;
            && reply == Some(Reply(job.tag, ok, false)) && OthersKept(core, core', r.fid)
            && (ok ==> Seen(core', r.fid) == Some(Thing(core.root, job.host.kind, false)))
  {
    hide Served, P9Server.Execute, OthersKept, Seen, P9Server.Owned, EncodesOne;
    ServedAs(core, packet, job);
    AttachMeaning(core, job.request.fid, job.request.afid, Text(job.request.aname), job.host.kind);
  }

  lemma WalkServed(core: Core, packet: Packet, job: Job)
    requires EncodesOne(packet, job) && job.request.TWalk? && P9Server.Owned(core)
    requires !P9Server.ClonesLastOntoItself(core, EventOf(job).value)
    ensures var (core', reply) := Served(core, packet);
            var r, n := job.request, |job.request.names|;
            var ok := && P9Paths.AllLegal(Texts(r.names)) && P9Server.BoundDir(core, r.fid)
                      && (r.newfid !in core.fids || r.newfid == r.fid)
                      && forall i :: 0 <= i < n ==> Found(job.host, n)[i].Some?;
            && reply == Some(Reply(job.tag, ok, ok))
            && OthersKept(core, core', r.newfid)
            && (ok && n == 0 ==> Seen(core', r.newfid) == Seen(core, r.fid))
            && (ok && n > 0 ==>
                  && Found(job.host, n)[n - 1].Some?
                  && Seen(core', r.newfid) ==
                     Some(Thing(P9Paths.Walk(core.heap[core.fids[r.fid]].path, core.root, Texts(r.names)),
                                Found(job.host, n)[n - 1].value, false)))
  {
    hide Served, P9Server.Execute, P9Server.Owned, EncodesOne, P9Paths.AllLegal, P9Paths.Walk;
    hide P9Server.ClonesLastOntoItself;
    var r := job.request;
    var names, found := Texts(r.names), Found(job.host, |r.names|);
    ServedAs(core, packet, job);
    WalkSucceedsIff(core, r.fid, r.newfid, names, found);
    if P9Server.Execute(core, EventOf(job).value).1 {
      WalkMeaning(core, r.fid, r.newfid, names, found);
    } else {
      WalkRefused(core, r.fid, r.newfid, names, found);
    }
  }

  lemma CreateServed(core: Core, packet: Packet, job: Job)
    requires EncodesOne(packet, job) && job.request.TCreate? && P9Server.Owned(core)
    ensures var (core', reply) := Served(core, packet);
            var r, child := job.request, job.host.child;
            var ok := && P9Paths.LegalName(Text(r.name)) && P9Server.BoundDir(core, r.fid) && child.Some?
                      && (child.value == P9Server.Dir || (r.mode < 3 && job.host.opens));
            && reply == Some(Reply(job.tag, ok, false)) && OthersKept(core, core', r.fid)
            && (ok ==> Seen(core', r.fid) ==
                       Some(Thing(P9Paths.Next(core.heap[core.fids[r.fid]].path, core.root, Text(r.name)),
                                  child.value, true)))
            && (!ok ==> Seen(core', r.fid) == Seen(core, r.fid))
  {
    hide Served, P9Server.Execute, OthersKept, P9Server.Owned, EncodesOne, P9Paths.LegalName, P9Paths.Next;
    var r := job.request;
    ServedAs(core, packet, job);
    CreateMeaning(core, r.fid, Text(r.name), r.mode, job.host.child, job.host.opens);
  }

  lemma OpenServed(core: Core, packet: Packet, job: Job)
    requires EncodesOne(packet, job) && job.request.TOpen?
    ensures var (core', reply) := Served(core, packet);
            var r, was := job.request, Seen(core, job.request.fid);
            var ok := && was.Some? && was.value.kind == P9Server.File && !was.value.isOpen
                      && r.mode < 3 && job.host.opens;
            && reply == Some(Reply(job.tag, ok, false)) && core'.fids == core.fids
            && forall f :: Seen(core', f) == if ok then SeenWith(core, r.fid, true, f) else Seen(core, f)
  {
    hide Served, P9Server.Execute, EncodesOne;
    ServedAs(core, packet, job);
    OpenMeaning(core, job.request.fid, job.request.mode, job.host.opens);
  }

  lemma BoundSeen(core: Core, fid: nat)
    requires P9Server.Owned(core)
    ensures Seen(core, fid).Some? <==> fid in core.fids
  {
    if fid in core.fids {
      P9Server.AccountedLive(core, {}, fid);
    }
  }

  lemma UnboundSeen(core: Core, fid: nat)
    ensures fid !in core.fids ==> core.fids - {fid} == core.fids
    ensures fid !in core.fids ==> forall f :: SeenWith(core, fid, false, f) == Seen(core, f)
  {
  }

  /** Clunk reports whether the object was open, and frees the fid in any case. */
  lemma ClunkServed(core: Core, packet: Packet, job: Job)
    requires EncodesOne(packet, job) && job.request.TClunk? && P9Server.Owned(core)
    ensures var (core', reply) := Served(core, packet);
            var fid, was := job.request.fid, Seen(core, job.request.fid);
            && reply == Some(Reply(job.tag, was.Some? && was.value.isOpen, false))
            && core'.fids == core.fids - {fid}
            && forall f :: f != fid ==> Seen(core', f) == SeenWith(core, fid, false, f)
  {
    hide Served, P9Server.Execute, EncodesOne, Seen, P9Server.Owned;
    ServedAs(core, packet, job);
    BoundSeen(core, job.request.fid);
    ClunkMeaning(core, job.request.fid);
    UnboundSeen(core, job.request.fid);
  }

  /** Remove closes the object, and frees the fid if the host unlinks the file. */
  lemma RemoveServed(core: Core, packet: Packet, job: Job)
    requires EncodesOne(packet, job) && job.request.TRemove? && P9Server.Owned(core)
    ensures var (core', reply) := Served(core, packet);
            var fid, gone := job.request.fid, job.host.unlinked;
            && reply == Some(Reply(job.tag, Seen(core, fid).Some? && gone, false))
            && core'.fids == (if gone then core.fids - {fid} else core.fids)
            && forall f :: f != fid || !gone ==> Seen(core', f) == SeenWith(core, fid, false, f)
  {
    hide Served, P9Server.Execute, EncodesOne, Seen, P9Server.Owned;
    ServedAs(core, packet, job);
    BoundSeen(core, job.request.fid);
    RemoveMeaning(core, job.request.fid, job.host.unlinked);
    UnboundSeen(core, job.request.fid);
  }
}
