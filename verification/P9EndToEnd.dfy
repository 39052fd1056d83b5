/** The 9P device from the guest's requests to its responses: the wire format, the two threads and the
    fid table together. */
module P9EndToEnd {
  import opened Words
  import P9Paths
  import P9Wire
  import P9Server
  import P9Pipeline

  /** What the host file system answers while a request is executed; `other` is the outcome of a request
      that does not touch the fid table, or None if it has no response. */
  datatype Host = Host(
    kind: P9Server.Kind, found: seq<Option<P9Server.Kind>>, child: Option<P9Server.Kind>,
    opens: bool, unlinked: bool, other: Option<bool>)

  /** A posted message, with what the receive buffer holds behind it. */
  datatype Packet = Packet(bytes: P9Wire.Bytes, junk: P9Wire.Bytes, host: Host)

  datatype Job = Job(tag: nat, request: P9Wire.Request, host: Host)

  /** A response; `walked` marks the response to a walk that succeeded, which owns the walk's intermediate
      objects. */
  datatype Reply = Reply(tag: nat, ok: bool, walked: bool)

  function Text(b: P9Wire.Bytes): string {
    seq(|b|, i requires 0 <= i < |b| => b[i] as char)
  }

  function Texts(bs: seq<P9Wire.Bytes>): seq<string> {
    seq(|bs|, i requires 0 <= i < |bs| => Text(bs[i]))
  }

  function Found(host: Host, n: nat): seq<Option<P9Server.Kind>> {
    seq(n, i requires 0 <= i < n => if i < |host.found| then host.found[i] else None)
  }

  /** The request as a step of the fid table. */
  function EventOf(job: Job): Option<P9Server.Event> {
    match job.request
    case TAttach(fid, afid, _, aname) => Some(P9Server.Attach(fid, afid, Text(aname), job.host.kind))
    case TWalk(fid, newfid, names) => Some(P9Server.Event.Walk(fid, newfid, Texts(names), Found(job.host, |names|)))
    case TOpen(fid, mode) => Some(P9Server.Open(fid, mode, job.host.opens))
    case TCreate(fid, name, _, mode) => Some(P9Server.Create(fid, Text(name), mode, job.host.child, job.host.opens))
    case TClunk(fid) => Some(P9Server.Clunk(fid))
    case TRemove(fid) => Some(P9Server.Remove(fid, job.host.unlinked))
    case _ => None
  }

  function Parse(p: Packet): Option<Job> {
    match P9Wire.ParseMessage(p.bytes, p.junk)
    case Some((tag, Ok((r, _)))) => Some(Job(tag, r, p.host))
    case _ => None
  }

  function Process(core: P9Server.Core, job: Job): (P9Server.Core, Option<Reply>) {
    var e := EventOf(job);
    if e.None? then (core, if job.host.other.Some? then Some(Reply(job.tag, job.host.other.value, false)) else None)
    else if !P9Server.WellFormed(core, e.value) then (core, Some(Reply(job.tag, false, false)))
    else
      var (core', ok) := P9Server.Execute(core, e.value);
      (core', Some(Reply(job.tag, ok, ok && e.value.Walk?)))
  }

  const SERVER: P9Pipeline.Server<P9Server.Core, Packet, Job, Reply> := P9Pipeline.Server(Parse, Process)

  // ----------------------------------------------------------- from bytes to jobs

  /** A request that the guest can send. */
  ghost predicate Sendable(job: Job) {
    && P9Wire.Fits(job.request) && job.tag < P9Wire.Range(2)
    && P9Wire.HEADER_BYTES + |P9Wire.Body(job.request)| < P9Wire.Range(4)
  }

  /** The packets are the encodings of the jobs, whatever bytes follow them in the buffers. */
  ghost predicate Encodes(packets: seq<Packet>, jobs: seq<Job>) {
    && |packets| == |jobs|
    && forall i :: 0 <= i < |jobs| ==> EncodesOne(packets[i], jobs[i])
  }

  ghost predicate EncodesOne(packet: Packet, job: Job) {
    && Sendable(job) && packet.host == job.host
    && packet.bytes == P9Wire.Message(job.tag, job.request)
  }

  lemma ParsesBack(packet: Packet, job: Job)
    requires EncodesOne(packet, job)
    ensures Parse(packet) == Some(job)
  {
    hide P9Wire.Message, P9Wire.ParseMessage;
    P9Wire.MessageRoundTrip(job.tag, job.request, packet.junk);
  }

  lemma {:induction false} AllParsed(packets: seq<Packet>, jobs: seq<Job>)
    requires Encodes(packets, jobs)
    ensures P9Pipeline.Parsed(SERVER, packets) == jobs
    decreases |jobs|
  {
    hide EncodesOne;
    if jobs != [] {
      ParsesBack(packets[0], jobs[0]);
      AllParsed(packets[1..], jobs[1..]);
    }
  }

  // ------------------------------------------------------- from jobs to the table

  function Events(jobs: seq<Job>): seq<P9Server.Event> {
    if jobs == [] then [] else AsSeq(EventOf(jobs[0])) + Events(jobs[1..])
  }

  lemma FourBytes()
    ensures P9Wire.Range(4) == P9Server.FIDS
  {
    assert P9Wire.Range(1) == 0x100;
    assert P9Wire.Range(2) == 0x1_0000;
    assert P9Wire.Range(3) == 0x100_0000;
  }

  /** What fits in a message is well formed for the table. */
  lemma WellFormedEvent(job: Job, core: P9Server.Core)
    requires P9Wire.Fits(job.request) && EventOf(job).Some?
    ensures P9Server.WellFormed(core, EventOf(job).value)
  {
    FourBytes();
    var fs, ks := P9Wire.Fields(job.request), P9Wire.Format(P9Wire.TypeOf(job.request));
    assert P9Wire.FieldFits(fs[0], ks[0]);
    assert |ks| > 1 ==> P9Wire.FieldFits(fs[1], ks[1]);
  }

  /** Whatever bytes arrive, a request that parses fits. */
  lemma ParsedFits(p: Packet)
    requires Parse(p).Some?
    ensures P9Wire.Fits(Parse(p).value.request)
  {
    var size := P9Wire.FromLe(p.bytes[..4]);
    var c := P9Wire.Cursor(p.bytes[P9Wire.HEADER_BYTES..size] + p.junk, size);
    var (r, c') := P9Wire.ParseBody(p.bytes[4], c).value;
    hide P9Wire.ParseBody;
    P9Wire.RequestRoundTrip(p.bytes[4], c, r, c');
  }

  lemma {:induction false} EventsSnoc(jobs: seq<Job>, job: Job)
    ensures Events(jobs + [job]) == Events(jobs) + AsSeq(EventOf(job))
    decreases |jobs|
  {
    hide EventOf, AsSeq;
    var last := AsSeq(EventOf(job));
    if jobs == [] {
      assert jobs + [job] == [job] && [job][1..] == [];
      assert last + [] == [] + last;
    } else {
      EventsSnoc(jobs[1..], job);
      assert (jobs + [job])[1..] == jobs[1..] + [job];
      ConcatAssociates(AsSeq(EventOf(jobs[0])), Events(jobs[1..]), last);
    }
  }

  lemma {:induction false} RunSnoc(core: P9Server.Core, es: seq<P9Server.Event>, e: P9Server.Event)
    requires P9Server.IsRun(core, es) && P9Server.WellFormed(P9Server.After(core, es), e)
    requires !P9Server.ClonesLastOntoItself(P9Server.After(core, es), e)
    ensures P9Server.IsRun(core, es + [e])
    ensures P9Server.After(core, es + [e]) == P9Server.Execute(P9Server.After(core, es), e).0
    decreases |es|
  {
    hide P9Server.Execute, P9Server.WellFormed, P9Server.ClonesLastOntoItself;
    if es == [] {
      assert es + [e] == [e] && [e][1..] == [];
      var core' := P9Server.Execute(core, e).0;
      assert P9Server.IsRun(core', []);
      assert P9Server.After(core, [e]) == P9Server.After(core', []);
    } else {
      assert (es + [e])[0] == es[0] && (es + [e])[1..] == es[1..] + [e];
      RunSnoc(P9Server.Execute(core, es[0]).0, es[1..], e);
    }
  }

  /** The replies to requests that all concern the table: their tags, with the outcomes of the run. */
  ghost predicate RepliesTo(replies: seq<Reply>, jobs: seq<Job>, outcomes: seq<bool>) {
    && |replies| == |jobs| == |outcomes|
    && forall i :: 0 <= i < |jobs| ==> replies[i].tag == jobs[i].tag && replies[i].ok == outcomes[i]
  }

  ghost predicate OnTable(jobs: seq<Job>) {
    forall i :: 0 <= i < |jobs| ==> EventOf(jobs[i]).Some?
  }

  lemma {:induction false} TableReplies(core: P9Server.Core, jobs: seq<Job>)
    requires OnTable(jobs) && P9Server.IsRun(core, Events(jobs))
    ensures RepliesTo(P9Pipeline.Answers(SERVER, core, jobs), jobs, P9Server.Outcomes(core, Events(jobs)))
    decreases |jobs|
  {
    hide EventOf, P9Server.Execute, P9Server.WellFormed, P9Server.ClonesLastOntoItself;
    if jobs != [] {
      var e, es := EventOf(jobs[0]).value, Events(jobs[1..]);
      NotRespond(jobs[0]);
      assert ([e] + es)[1..] == es;
      var (core', ok) := P9Server.Execute(core, e);
      TableReplies(core', jobs[1..]);
      assert P9Pipeline.Answers(SERVER, core, jobs) ==
             [Reply(jobs[0].tag, ok, ok && e.Walk?)] + P9Pipeline.Answers(SERVER, core', jobs[1..]);
    }
  }

  lemma NotRespond(job: Job)
    requires EventOf(job).Some?
    ensures !EventOf(job).value.Respond?
  {
  }

  // ----------------------------------------------------- the threads on one table

  type Pipe<B> = P9Pipeline.State<P9Server.Core, Packet, Job, Reply, B>

  type Act<B> = P9Pipeline.Event<Packet, B>

  /** The response thread deletes the response when it has been written out: a walk's response takes the
      walk's intermediate objects with it. */
  function Destroyed(core: P9Server.Core, reply: Reply): P9Server.Core {
    if reply.walked && core.pending != [] then P9Server.Execute(core, P9Server.Respond).0 else core
  }

  /** The pipeline's steps, except that no request processed is the walk that breaks ownership. */
  ghost predicate DevEnabled<B>(s: Pipe<B>, e: Act<B>) {
    && P9Pipeline.Enabled(s, e)
    && (e.Process? ==>
          var event := EventOf(s.request.value);
          event.Some? ==> !P9Server.ClonesLastOntoItself(s.core, event.value))
  }

  /** Both threads work on the same objects: the request thread executes, the response thread deletes. */
  function DevStep<B>(s: Pipe<B>, e: Act<B>): Pipe<B>
    requires P9Pipeline.Enabled(s, e)
  {
    var s' := P9Pipeline.Step(SERVER, s, e);
    if e.Complete? then s'.(core := Destroyed(s.core, s.response.value)) else s'
  }

  ghost predicate DevIsRun<B>(s: Pipe<B>, es: seq<Act<B>>)
    decreases |es|
  {
    es == [] || (DevEnabled(s, es[0]) && DevIsRun(DevStep(s, es[0]), es[1..]))
  }

  ghost function DevAfter<B>(s: Pipe<B>, es: seq<Act<B>>): Pipe<B>
    requires DevIsRun(s, es)
    decreases |es|
  {
    if es == [] then s else DevAfter(DevStep(s, es[0]), es[1..])
  }

  function Walked(replies: seq<Reply>): nat {
    if replies == [] then 0 else (if replies[0].walked then 1 else 0) + Walked(replies[1..])
  }

  lemma {:induction false} WalkedConcat(a: seq<Reply>, b: seq<Reply>)
    ensures Walked(a + b) == Walked(a) + Walked(b)
    decreases |a|
  {
    if a == [] {
      assert a + b == b;
    } else {
      WalkedConcat(a[1..], b);
      assert (a + b)[1..] == a[1..] + b;
    }
  }

  lemma WalkedOne(o: Option<Reply>)
    ensures Walked(AsSeq(o)) == if o.Some? && o.value.walked then 1 else 0
  {
  }

  /** Replies that the response thread has not yet deleted. */
  function InFlight<B>(s: Pipe<B>): nat {
    Walked(AsSeq(s.response)) + Walked(s.responses) + Walked(AsSeq(s.answer))
  }

  ghost predicate JobsFit(jobs: seq<Job>) {
    forall i :: 0 <= i < |jobs| ==> P9Wire.Fits(jobs[i].request)
  }

  /** The device `c` goes with a pipeline `a` in which nothing is ever deleted: they differ only in objects
      that no fid holds, and every walk response in flight has its intermediate objects queued. */
  ghost predicate Shadows<B>(c: Pipe<B>, a: Pipe<B>) {
    && c == a.(core := c.core)
    && P9Server.SameBound(c.core, a.core) && P9Server.Owned(c.core) && P9Server.Owned(a.core)
    && |c.core.pending| == InFlight(c)
    && JobsFit(c.requests) && JobsFit(AsSeq(c.request))
  }

  /** And `a` is where a run of the requests served has led. */
  ghost predicate OnTrack<B>(core0: P9Server.Core, a: Pipe<B>) {
    P9Server.IsRun(core0, Events(a.served)) && a.core == P9Server.After(core0, Events(a.served))
  }

  /** A request queues intermediate objects exactly if it is a walk that succeeds. */
  lemma PendingGrows(core: P9Server.Core, e: P9Server.Event)
    requires P9Server.WellFormed(core, e) && !e.Respond?
    ensures var (core', ok) := P9Server.Execute(core, e);
            |core'.pending| == |core.pending| + if ok && e.Walk? then 1 else 0
  {
    hide P9Paths.AllLegal, P9Paths.LegalName, P9Server.Created, P9Server.NewIds;
  }

  lemma ProcessShadows<B>(core0: P9Server.Core, c: Pipe<B>, a: Pipe<B>)
    requires Shadows(c, a) && OnTrack(core0, a) && DevEnabled(c, Act<B>.Process)
    ensures var c', a' := DevStep(c, Act<B>.Process), P9Pipeline.Step(SERVER, a, Act<B>.Process);
            Shadows(c', a') && OnTrack(core0, a')
  {
    hide P9Server.Owned, P9Server.SameBound, P9Server.Execute, P9Server.WellFormed, P9Server.ClonesLastOntoItself,
         P9Server.IsRun, P9Server.After, EventOf, Events;
    var job := c.request.value;
    assert P9Wire.Fits(job.request) by {
      assert AsSeq(c.request)[0] == job;
    }
    EventsSnoc(a.served, job);
    var event := EventOf(job);
    WalkedOne(Process(c.core, job).1);
    WalkedOne(None);
    if event.Some? {
      var e := event.value;
      NotRespond(job);
      WellFormedEvent(job, c.core);
      WellFormedEvent(job, a.core);
      P9Server.RequestSame(c.core, a.core, e);
      P9Server.SafeStepKeepsOwnership(c.core, e);
      P9Server.SafeStepKeepsOwnership(a.core, e);
      PendingGrows(c.core, e);
      RunSnoc(core0, Events(a.served), e);
    } else {
      assert Events(a.served) + [] == Events(a.served);
    }
  }

  lemma CompleteShadows<B>(c: Pipe<B>, a: Pipe<B>)
    requires Shadows(c, a) && P9Pipeline.Enabled(c, Act<B>.Complete)
    ensures Shadows(DevStep(c, Act<B>.Complete), P9Pipeline.Step(SERVER, a, Act<B>.Complete))
  {
    hide P9Server.Owned, P9Server.SameBound;
    WalkedOne(c.response);
    if c.response.value.walked {
      assert c.core.pending != [];
      P9Server.RespondUnseen(c.core);
      P9Server.RespondKeeps(c.core);
      P9Server.SameBoundSteps(Destroyed(c.core, c.response.value), c.core, a.core);
    }
  }

  /** The other steps move requests, replies and buffers, and leave the objects alone. */
  lemma MoveShadows<B>(c: Pipe<B>, a: Pipe<B>, e: Act<B>)
    requires Shadows(c, a) && P9Pipeline.Enabled(c, e) && !e.Process? && !e.Complete?
    ensures Shadows(DevStep(c, e), P9Pipeline.Step(SERVER, a, e))
  {
    hide P9Server.Owned, P9Server.SameBound;
    match e
    case FetchMessage =>
      if Parse(c.messages[0]).Some? {
        ParsedFits(c.messages[0]);
      }
      hide Parse, P9Wire.Fits;
    case TakeRequest => assert P9Wire.Fits(c.requests[0].request);
    case QueueResponse => WalkedConcat(c.responses, [c.answer.value]);
    case TakeResponse =>
      assert c.responses == [c.responses[0]] + c.responses[1..];
      WalkedConcat([c.responses[0]], c.responses[1..]);
    case _ =>
  }

  lemma StepShadows<B>(core0: P9Server.Core, c: Pipe<B>, a: Pipe<B>, e: Act<B>)
    requires Shadows(c, a) && OnTrack(core0, a) && DevEnabled(c, e)
    ensures P9Pipeline.Enabled(a, e)
    ensures Shadows(DevStep(c, e), P9Pipeline.Step(SERVER, a, e)) && OnTrack(core0, P9Pipeline.Step(SERVER, a, e))
  {
    hide P9Server.Owned, P9Server.SameBound, P9Server.IsRun, P9Server.After, Events, EventOf, JobsFit, InFlight;
    if e.Process? {
      ProcessShadows(core0, c, a);
    } else if e.Complete? {
      CompleteShadows(c, a);
    } else {
      MoveShadows(c, a, e);
    }
  }

  lemma {:induction false} RunShadows<B>(core0: P9Server.Core, c: Pipe<B>, a: Pipe<B>, es: seq<Act<B>>)
    requires Shadows(c, a) && OnTrack(core0, a) && DevIsRun(c, es)
    ensures P9Pipeline.IsRun(SERVER, a, es)
    ensures Shadows(DevAfter(c, es), P9Pipeline.After(SERVER, a, es)) && OnTrack(core0, P9Pipeline.After(SERVER, a, es))
    decreases |es|
  {
    hide Shadows, OnTrack, DevStep, P9Pipeline.Step, P9Pipeline.Enabled;
    if es != [] {
      StepShadows(core0, c, a, es[0]);
      RunShadows(core0, DevStep(c, es[0]), P9Pipeline.Step(SERVER, a, es[0]), es[1..]);
    }
  }

  // -------------------------------------------------------------------- together

  /** In every interleaving of the guest, the request thread and the response thread, deletions included:
      the i-th completed buffer is the i-th one posted and carries the i-th reply of a server that handles
      the requests one at a time, which for requests on the fid table is the i-th request's tag and outcome;
      the table and every object it holds are what a run of the requests served so far, in the order they
      were posted, makes of them; and so every bound object is live and counts its fids. */
  lemma EndToEnd<B>(root: string, share: string, jobs: seq<Job>, es: seq<Act<B>>)
    requires DevIsRun(P9Pipeline.Start(P9Server.Start(root, share)), es)
    requires Encodes(DevAfter(P9Pipeline.Start(P9Server.Start(root, share)), es).allMessages, jobs)
    ensures var core0 := P9Server.Start(root, share);
            var s: Pipe<B> := DevAfter(P9Pipeline.Start(core0), es);
            var replies := P9Pipeline.Answers(SERVER, core0, jobs);
            && |s.completed| <= |s.allBuffers| && |s.completed| <= |replies|
            && (forall i :: 0 <= i < |s.completed| ==> s.completed[i] == (s.allBuffers[i], replies[i]))
            && s.served <= jobs && P9Server.IsRun(core0, Events(s.served))
            && P9Server.SameBound(s.core, P9Server.After(core0, Events(s.served))) && P9Server.Owned(s.core)
            && (OnTable(s.served) ==>
                  var outcomes := P9Server.Outcomes(core0, Events(s.served));
                  && |s.completed| <= |s.served| == |outcomes|
                  && forall i :: 0 <= i < |s.completed| ==>
                       s.completed[i].1.tag == s.served[i].tag && s.completed[i].1.ok == outcomes[i])
  {
    var core0 := P9Server.Start(root, share);
    var s0: Pipe<B> := P9Pipeline.Start(core0);
    assert P9Server.Owned(core0);
    assert Shadows(s0, s0) && OnTrack(core0, s0);
    hide Shadows, OnTrack, DevIsRun, DevAfter, Events, Encodes, OnTable, P9Server.Owned, P9Server.IsRun, P9Server.After,
         P9Server.SameBound, P9Server.Outcomes,
         P9Pipeline.IsRun, P9Pipeline.After, P9Pipeline.Answers, P9Pipeline.Parsed;
    RunShadows(core0, s0, s0, es);
    var s, a := DevAfter(s0, es), P9Pipeline.After(SERVER, s0, es);
    P9Pipeline.PipelineIsSequential(SERVER, core0, es);
    ShadowFacts(core0, s, a);
    AllParsed(s.allMessages, jobs);
    ServedInOrder(core0, es);
    if OnTable(s.served) {
      TableReplies(core0, s.served);
    }
  }

  lemma ShadowFacts<B>(core0: P9Server.Core, c: Pipe<B>, a: Pipe<B>)
    requires Shadows(c, a) && OnTrack(core0, a)
    ensures c == a.(core := c.core) && P9Server.Owned(c.core) && P9Server.IsRun(core0, Events(c.served))
    ensures P9Server.SameBound(c.core, P9Server.After(core0, Events(c.served)))
  {
  }

  lemma ServedInOrder<B>(core0: P9Server.Core, es: seq<Act<B>>)
    requires P9Pipeline.IsRun(SERVER, P9Pipeline.Start<P9Server.Core, Packet, Job, Reply, B>(core0), es)
    ensures var s: Pipe<B> := P9Pipeline.After(SERVER, P9Pipeline.Start(core0), es);
            && s.served <= P9Pipeline.Parsed(SERVER, s.allMessages)
            && |s.completed| <= |P9Pipeline.Answers(SERVER, core0, s.served)|
            && forall i :: 0 <= i < |s.completed| ==>
                 s.completed[i].1 == P9Pipeline.Answers(SERVER, core0, s.served)[i]
  {
    var s0: Pipe<B> := P9Pipeline.Start(core0);
    assert P9Pipeline.InOrder(SERVER, core0, s0);
    P9Pipeline.RunInOrder(SERVER, core0, s0, es);
    hide P9Pipeline.InOrder, P9Pipeline.Answers, P9Pipeline.Parsed;
    var s := P9Pipeline.After(SERVER, s0, es);
    ServedPrefix(core0, s);
    P9Pipeline.CompletedPairs(SERVER, core0, s);
    forall i | 0 <= i < |s.completed|
      ensures s.completed[i].1 == P9Pipeline.Answers(SERVER, core0, s.served)[i]
    {
      assert P9Pipeline.Seconds(s.completed)[i] == s.completed[i].1;
    }
  }

  lemma ServedPrefix<B>(core0: P9Server.Core, s: Pipe<B>)
    requires P9Pipeline.InOrder(SERVER, core0, s)
    ensures s.served <= P9Pipeline.Parsed(SERVER, s.allMessages)
  {
    P9Pipeline.LineParts(s.served, s.request, s.requests, P9Pipeline.Parsed(SERVER, s.messages));
  }
}
