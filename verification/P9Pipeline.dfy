/** The two-thread request pipeline of the 9P device (devices/ooows-p9fs.cpp), over the queues of
    devices/broadcooom/myqueue.hpp. Guest notifications, RequestLoop and ResponseLoop interleave one
    queue operation at a time. */
module P9Pipeline {
  import opened Words

  /** A queue shared by threads; `Get` blocks while it is empty. `put` and `got` are history. */
  class ThreadedQueue<T> {
    var items: seq<T>
    ghost var put: seq<T>
    ghost var got: seq<T>

    /** What was put is what was taken, in the same order, and then what is still there. */
    ghost predicate Valid()
      reads this
    {
      put == got + items
    }

    constructor ()
      ensures Valid() && put == [] && got == []
    {
      items, put, got := [], [], [];
    }

    method Put(item: T)
      requires Valid()
      modifies this
      ensures Valid() && put == old(put) + [item] && got == old(got)
      ensures items == old(items) + [item]
    {
      items := items + [item];
      put := put + [item];
    }

    /** The k-th item taken is the k-th item put. */
    method Get() returns (item: T)
      requires Valid() && |got| < |put|
      modifies this
      ensures Valid() && put == old(put) && got == old(got) + [item]
      ensures item == put[|old(got)|] && [item] + items == old(items)
    {
      item := items[0];
      items := items[1..];
      got := got + [item];
    }
  }

  /** How the server treats messages: parsing, which drops unknown types, and processing. */
  datatype Server<!S, !M, !Q, !R> = Server(parse: M -> Option<Q>, process: (S, Q) -> (S, Option<R>))

  /** `messages` and `free` are posted by the guest and not yet fetched. The request thread holds at
      most one request or one answer, the response thread at most one response and one buffer.
      `served`, `allMessages` and `allBuffers` are history. */
  datatype State<S, M, Q, R, B> = State(
    core: S,
    messages: seq<M>, requests: seq<Q>, request: Option<Q>, answer: Option<R>,
    responses: seq<R>, response: Option<R>,
    free: seq<B>, buffers: seq<B>, buffer: Option<B>,
    completed: seq<(B, R)>,
    served: seq<Q>, allMessages: seq<M>, allBuffers: seq<B>)

  datatype Event<M, B> =
    | PostMessage(m: M)   // the guest posts a TMESG buffer
    | PostBuffer(b: B)    // the guest posts an RMESG buffer
    | FetchMessage        // got_data on the TMESG queue
    | FetchBuffer         // got_data on the RMESG queue
    | TakeRequest         // RequestLoop: get
    | Process             // RequestLoop: Process
    | QueueResponse       // RequestLoop: put
    | TakeResponse        // ResponseLoop: get the response
    | TakeBuffer          // ResponseLoop: get the buffer
    | Complete            // ResponseLoop: serialize and put_buf

  predicate Enabled<S, M, Q, R, B>(s: State<S, M, Q, R, B>, e: Event<M, B>) {
    match e
    case PostMessage(_) => true
    case PostBuffer(_) => true
    case FetchMessage => s.messages != []
    case FetchBuffer => s.free != []
    case TakeRequest => s.request.None? && s.answer.None? && s.requests != []
    case Process => s.request.Some? && s.answer.None?
    case QueueResponse => s.answer.Some?
    case TakeResponse => s.response.None? && s.responses != []
    case TakeBuffer => s.response.Some? && s.buffer.None? && s.buffers != []
    case Complete => s.response.Some? && s.buffer.Some?
  }

  function Step<S, M, Q, R, B>(srv: Server<S, M, Q, R>, s: State<S, M, Q, R, B>, e: Event<M, B>): State<S, M, Q, R, B>
    requires Enabled(s, e)
  {
    match e
    case PostMessage(m) => s.(messages := s.messages + [m], allMessages := s.allMessages + [m])
    case PostBuffer(b) => s.(free := s.free + [b], allBuffers := s.allBuffers + [b])
    case FetchMessage =>
      s.(messages := s.messages[1..], requests := s.requests + AsSeq(srv.parse(s.messages[0])))
    case FetchBuffer => s.(free := s.free[1..], buffers := s.buffers + [s.free[0]])
    case TakeRequest => s.(request := Some(s.requests[0]), requests := s.requests[1..])
    case Process =>
      var (core, answer) := srv.process(s.core, s.request.value);
      s.(core := core, answer := answer, request := None, served := s.served + [s.request.value])
    case QueueResponse => s.(responses := s.responses + [s.answer.value], answer := None)
    case TakeResponse => s.(response := Some(s.responses[0]), responses := s.responses[1..])
    case TakeBuffer => s.(buffer := Some(s.buffers[0]), buffers := s.buffers[1..])
    case Complete =>
      s.(completed := s.completed + [(s.buffer.value, s.response.value)], response := None, buffer := None)
  }

  predicate IsRun<S, M, Q, R, B>(srv: Server<S, M, Q, R>, s: State<S, M, Q, R, B>, es: seq<Event<M, B>>)
    decreases |es|
  {
    es == [] || (Enabled(s, es[0]) && IsRun(srv, Step(srv, s, es[0]), es[1..]))
  }

  function After<S, M, Q, R, B>(srv: Server<S, M, Q, R>, s: State<S, M, Q, R, B>, es: seq<Event<M, B>>)
    : State<S, M, Q, R, B>
    requires IsRun(srv, s, es)
    decreases |es|
  {
    if es == [] then s else After(srv, Step(srv, s, es[0]), es[1..])
  }

  function Start<S, M, Q, R, B>(core: S): State<S, M, Q, R, B> {
    State(core, [], [], None, None, [], None, [], [], None, [], [], [], [])
  }

  // ------------------------------------------------- one request after another

  function Parsed<S, M, Q, R>(srv: Server<S, M, Q, R>, ms: seq<M>): seq<Q> {
    if ms == [] then [] else AsSeq(srv.parse(ms[0])) + Parsed(srv, ms[1..])
  }

  function CoreAfter<S, M, Q, R>(srv: Server<S, M, Q, R>, core: S, qs: seq<Q>): S
    decreases |qs|
  {
    if qs == [] then core else CoreAfter(srv, srv.process(core, qs[0]).0, qs[1..])
  }

  /** The responses of a server that handles one request completely before the next. */
  function Answers<S, M, Q, R>(srv: Server<S, M, Q, R>, core: S, qs: seq<Q>): seq<R>
    decreases |qs|
  {
    if qs == [] then []
    else
      var (core1, answer) := srv.process(core, qs[0]);
      AsSeq(answer) + Answers(srv, core1, qs[1..])
  }

  lemma {:induction false} ParsedConcat<S, M, Q, R>(srv: Server<S, M, Q, R>, a: seq<M>, b: seq<M>)
    ensures Parsed(srv, a + b) == Parsed(srv, a) + Parsed(srv, b)
    decreases |a|
  {
    if a == [] {
      assert a + b == b;
    } else {
      ParsedConcat(srv, a[1..], b);
      assert (a + b)[1..] == a[1..] + b;
    }
  }

  lemma {:induction false} AnswersConcat<S, M, Q, R>(srv: Server<S, M, Q, R>, core: S, a: seq<Q>, b: seq<Q>)
    ensures CoreAfter(srv, core, a + b) == CoreAfter(srv, CoreAfter(srv, core, a), b)
    ensures Answers(srv, core, a + b) == Answers(srv, core, a) + Answers(srv, CoreAfter(srv, core, a), b)
    decreases |a|
  {
    if a == [] {
      assert a + b == b;
    } else {
      AnswersConcat(srv, srv.process(core, a[0]).0, a[1..], b);
      assert (a + b)[1..] == a[1..] + b;
    }
  }

  // ----------------------------------------------------------------- invariant

  function Firsts<B, R>(ps: seq<(B, R)>): (bs: seq<B>)
    ensures |bs| == |ps|
  {
    seq(|ps|, i requires 0 <= i < |ps| => ps[i].0)
  }

  function Seconds<B, R>(ps: seq<(B, R)>): (rs: seq<R>)
    ensures |rs| == |ps|
  {
    seq(|ps|, i requires 0 <= i < |ps| => ps[i].1)
  }

  /** One stage read from its oldest item: finished, in hand, queued, and still to arrive. */
  function Line<T>(finished: seq<T>, hand: Option<T>, queued: seq<T>, arriving: seq<T>): seq<T> {
    finished + AsSeq(hand) + queued + arriving
  }

  lemma LineTake<T>(finished: seq<T>, queued: seq<T>, arriving: seq<T>)
    requires queued != []
    ensures Line(finished, Some(queued[0]), queued[1..], arriving) == Line(finished, None, queued, arriving)
  {
    assert [queued[0]] + queued[1..] == queued;
  }

  lemma LineFinish<T>(finished: seq<T>, x: T, queued: seq<T>, arriving: seq<T>)
    ensures Line(finished + [x], None, queued, arriving) == Line(finished, Some(x), queued, arriving)
  {
    assert finished + [x] + [] == finished + [x];
  }

  lemma LineQueue<T>(finished: seq<T>, hand: Option<T>, queued: seq<T>, first: seq<T>, rest: seq<T>)
    ensures Line(finished, hand, queued + first, rest) == Line(finished, hand, queued, first + rest)
  {
  }

  lemma LineArrive<T>(finished: seq<T>, hand: Option<T>, queued: seq<T>, arriving: seq<T>, more: seq<T>)
    ensures Line(finished, hand, queued, arriving + more) == Line(finished, hand, queued, arriving) + more
  {
  }

  /** Nothing is lost, duplicated or reordered on the way: reading each stage from its oldest item
      gives back everything posted, and the core is where sequential processing would be. */
  ghost predicate InOrder<S, M, Q, R, B>(srv: Server<S, M, Q, R>, core0: S, s: State<S, M, Q, R, B>) {
    && Line(s.served, s.request, s.requests, Parsed(srv, s.messages)) == Parsed(srv, s.allMessages)
    && s.core == CoreAfter(srv, core0, s.served)
    && Line(Seconds(s.completed), s.response, s.responses, AsSeq(s.answer)) == Answers(srv, core0, s.served)
    && Line(Firsts(s.completed), s.buffer, s.buffers, s.free) == s.allBuffers
    && (s.request.Some? ==> s.answer.None?)
    && (s.buffer.Some? ==> s.response.Some?)
  }

  lemma PostKeeps<S, M, Q, R, B>(srv: Server<S, M, Q, R>, core0: S, s: State<S, M, Q, R, B>, e: Event<M, B>)
    requires InOrder(srv, core0, s) && (e.PostMessage? || e.PostBuffer?)
    ensures InOrder(srv, core0, Step(srv, s, e))
  {
    hide Line, Parsed, Answers, CoreAfter, Firsts, Seconds;
    match e
    case PostMessage(m) =>
      ParsedConcat(srv, s.messages, [m]);
      ParsedConcat(srv, s.allMessages, [m]);
      LineArrive(s.served, s.request, s.requests, Parsed(srv, s.messages), Parsed(srv, [m]));
    case PostBuffer(b) =>
      LineArrive(Firsts(s.completed), s.buffer, s.buffers, s.free, [b]);
  }

  lemma FetchKeeps<S, M, Q, R, B>(srv: Server<S, M, Q, R>, core0: S, s: State<S, M, Q, R, B>, e: Event<M, B>)
    requires InOrder(srv, core0, s) && Enabled(s, e) && (e.FetchMessage? || e.FetchBuffer?)
    ensures InOrder(srv, core0, Step(srv, s, e))
  {
    hide Line, Answers, CoreAfter, Firsts, Seconds;
    if e.FetchMessage? {
      LineQueue(s.served, s.request, s.requests, AsSeq(srv.parse(s.messages[0])), Parsed(srv, s.messages[1..]));
    } else {
      assert [s.free[0]] + s.free[1..] == s.free;
      LineQueue(Firsts(s.completed), s.buffer, s.buffers, [s.free[0]], s.free[1..]);
    }
  }

  lemma TakeKeeps<S, M, Q, R, B>(srv: Server<S, M, Q, R>, core0: S, s: State<S, M, Q, R, B>, e: Event<M, B>)
    requires InOrder(srv, core0, s) && Enabled(s, e) && (e.TakeRequest? || e.TakeResponse? || e.TakeBuffer?)
    ensures InOrder(srv, core0, Step(srv, s, e))
  {
    hide Line, Parsed, Answers, CoreAfter, Firsts, Seconds;
    match e
    case TakeRequest => LineTake(s.served, s.requests, Parsed(srv, s.messages));
    case TakeResponse => LineTake(Seconds(s.completed), s.responses, AsSeq(s.answer));
    case TakeBuffer => LineTake(Firsts(s.completed), s.buffers, s.free);
  }

  lemma ProcessKeeps<S, M, Q, R, B>(srv: Server<S, M, Q, R>, core0: S, s: State<S, M, Q, R, B>)
    requires InOrder(srv, core0, s) && Enabled(s, Event<M, B>.Process)
    ensures InOrder(srv, core0, Step(srv, s, Event<M, B>.Process))
  {
    hide Line, Parsed, Firsts, Seconds;
    var q := s.request.value;
    var answer := AsSeq(srv.process(s.core, q).1);
    AnswersConcat(srv, core0, s.served, [q]);
    assert CoreAfter(srv, s.core, [q]) == srv.process(s.core, q).0;
    assert Answers(srv, s.core, [q]) == answer + [];
    LineFinish(s.served, q, s.requests, Parsed(srv, s.messages));
    LineArrive(Seconds(s.completed), s.response, s.responses, [], answer);
    assert [] + answer == answer;
  }

  lemma QueueResponseKeeps<S, M, Q, R, B>(srv: Server<S, M, Q, R>, core0: S, s: State<S, M, Q, R, B>)
    requires InOrder(srv, core0, s) && Enabled(s, Event<M, B>.QueueResponse)
    ensures InOrder(srv, core0, Step(srv, s, Event<M, B>.QueueResponse))
  {
    hide Line, Parsed, Answers, CoreAfter, Firsts, Seconds;
    LineQueue(Seconds(s.completed), s.response, s.responses, [s.answer.value], []);
    assert [s.answer.value] + [] == AsSeq(s.answer);
  }

  lemma CompleteKeeps<S, M, Q, R, B>(srv: Server<S, M, Q, R>, core0: S, s: State<S, M, Q, R, B>)
    requires InOrder(srv, core0, s) && Enabled(s, Event<M, B>.Complete)
    ensures InOrder(srv, core0, Step(srv, s, Event<M, B>.Complete))
  {
    hide Line, Parsed, Answers, CoreAfter;
    var s' := Step(srv, s, Event<M, B>.Complete);
    assert Firsts(s'.completed) == Firsts(s.completed) + [s.buffer.value];
    assert Seconds(s'.completed) == Seconds(s.completed) + [s.response.value];
    LineFinish(Firsts(s.completed), s.buffer.value, s.buffers, s.free);
    LineFinish(Seconds(s.completed), s.response.value, s.responses, AsSeq(s.answer));
  }

  lemma StepKeepsOrder<S, M, Q, R, B>(srv: Server<S, M, Q, R>, core0: S, s: State<S, M, Q, R, B>, e: Event<M, B>)
    requires InOrder(srv, core0, s) && Enabled(s, e)
    ensures InOrder(srv, core0, Step(srv, s, e))
  {
    hide InOrder, Step;
    if e.PostMessage? || e.PostBuffer? {
      PostKeeps(srv, core0, s, e);
    } else if e.FetchMessage? || e.FetchBuffer? {
      FetchKeeps(srv, core0, s, e);
    } else if e.TakeRequest? || e.TakeResponse? || e.TakeBuffer? {
      TakeKeeps(srv, core0, s, e);
    } else if e.Process? {
      ProcessKeeps(srv, core0, s);
    } else if e.QueueResponse? {
      QueueResponseKeeps(srv, core0, s);
    } else {
      CompleteKeeps(srv, core0, s);
    }
  }

  lemma {:induction false} RunInOrder<S, M, Q, R, B>(
    srv: Server<S, M, Q, R>, core0: S, s: State<S, M, Q, R, B>, es: seq<Event<M, B>>)
    requires InOrder(srv, core0, s) && IsRun(srv, s, es)
    ensures InOrder(srv, core0, After(srv, s, es))
    decreases |es|
  {
    hide InOrder, Step, Enabled;
    if es != [] {
      StepKeepsOrder(srv, core0, s, es[0]);
      RunInOrder(srv, core0, Step(srv, s, es[0]), es[1..]);
    }
  }

  /** No thread can move without a new post. */
  predicate Stalled<S, M, Q, R, B>(s: State<S, M, Q, R, B>) {
    && !Enabled(s, FetchMessage) && !Enabled(s, FetchBuffer) && !Enabled(s, TakeRequest)
    && !Enabled(s, Process) && !Enabled(s, QueueResponse)
    && !Enabled(s, TakeResponse) && !Enabled(s, TakeBuffer) && !Enabled(s, Complete)
  }

  lemma LineParts<T>(finished: seq<T>, hand: Option<T>, queued: seq<T>, arriving: seq<T>)
    ensures finished <= Line(finished, hand, queued, arriving)
    ensures Line(finished, hand, queued, arriving) == finished + (AsSeq(hand) + queued + arriving)
  {
    assert finished + (AsSeq(hand) + queued + arriving) == finished + AsSeq(hand) + queued + arriving;
  }

  lemma CompletedPairs<S, M, Q, R, B>(srv: Server<S, M, Q, R>, core0: S, s: State<S, M, Q, R, B>)
    requires InOrder(srv, core0, s)
    ensures Seconds(s.completed) <= Answers(srv, core0, s.served) <= Answers(srv, core0, Parsed(srv, s.allMessages))
    ensures Firsts(s.completed) <= s.allBuffers
  {
    hide Line, Parsed, Answers, CoreAfter, Firsts, Seconds;
    var rest := AsSeq(s.request) + s.requests + Parsed(srv, s.messages);
    LineParts(s.served, s.request, s.requests, Parsed(srv, s.messages));
    AnswersConcat(srv, core0, s.served, rest);
    LineParts(Seconds(s.completed), s.response, s.responses, AsSeq(s.answer));
    LineParts(Firsts(s.completed), s.buffer, s.buffers, s.free);
  }

  lemma StalledDrained<S, M, Q, R, B>(srv: Server<S, M, Q, R>, core0: S, s: State<S, M, Q, R, B>)
    requires InOrder(srv, core0, s) && Stalled(s)
    ensures Firsts(s.completed) == s.allBuffers ||
            Seconds(s.completed) == Answers(srv, core0, Parsed(srv, s.allMessages))
  {
    hide Answers, CoreAfter, Firsts, Seconds;
    if s.response.None? {
      assert Seconds(s.completed) == Line(Seconds(s.completed), s.response, s.responses, AsSeq(s.answer));
      assert s.served == Line(s.served, s.request, s.requests, Parsed(srv, s.messages));
    } else {
      assert Firsts(s.completed) == Line(Firsts(s.completed), s.buffer, s.buffers, s.free);
    }
  }

  lemma InOrderPairs<S, M, Q, R, B>(srv: Server<S, M, Q, R>, core0: S, s: State<S, M, Q, R, B>)
    requires InOrder(srv, core0, s)
    ensures var answers := Answers(srv, core0, Parsed(srv, s.allMessages));
            && |s.completed| <= |answers| && |s.completed| <= |s.allBuffers|
            && (forall i :: 0 <= i < |s.completed| ==> s.completed[i] == (s.allBuffers[i], answers[i]))
            && (Stalled(s) ==> |s.completed| == |answers| || |s.completed| == |s.allBuffers|)
  {
    hide Line, Parsed, Answers, CoreAfter, Stalled, InOrder;
    CompletedPairs(srv, core0, s);
    if Stalled(s) {
      StalledDrained(srv, core0, s);
    }
    var answers := Answers(srv, core0, Parsed(srv, s.allMessages));
    forall i | 0 <= i < |s.completed|
      ensures s.completed[i] == (s.allBuffers[i], answers[i])
    {
      assert Firsts(s.completed)[i] == s.completed[i].0 && Seconds(s.completed)[i] == s.completed[i].1;
    }
  }

  /** The pipeline is schedule-independent. At every moment of every interleaving, the i-th completed
      buffer is the i-th one posted and carries the i-th response of a server handling the messages one
      at a time; once nothing can move, as many are completed as there are both responses and buffers. */
  lemma PipelineIsSequential<S, M, Q, R, B>(srv: Server<S, M, Q, R>, core0: S, es: seq<Event<M, B>>)
    requires IsRun(srv, Start(core0), es)
    ensures var s: State<S, M, Q, R, B> := After(srv, Start(core0), es);
            var answers := Answers(srv, core0, Parsed(srv, s.allMessages));
            && |s.completed| <= |answers| && |s.completed| <= |s.allBuffers|
            && (forall i :: 0 <= i < |s.completed| ==> s.completed[i] == (s.allBuffers[i], answers[i]))
            && (Stalled(s) ==> |s.completed| == |answers| || |s.completed| == |s.allBuffers|)
  {
    var s0: State<S, M, Q, R, B> := Start(core0);
    assert InOrder(srv, core0, s0);
    RunInOrder(srv, core0, s0, es);
    var s: State<S, M, Q, R, B> := After(srv, s0, es);
    InOrderPairs(srv, core0, s);
  }

  // ------------------------------------------------------------------ the device

  /** The device between two rounds of its loops: no thread holds anything. */
  class P9FsDev<S, M, Q, R, B> {
    const srv: Server<S, M, Q, R>
    const requests: ThreadedQueue<Q>
    const responses: ThreadedQueue<R>
    const buffers: ThreadedQueue<B>
    var core: S
    var messages: seq<M>          // posted on the TMESG queue
    var free: seq<B>              // posted on the RMESG queue
    var completed: seq<(B, R)>
    ghost const core0: S
    ghost var allMessages: seq<M>
    ghost var allBuffers: seq<B>

    ghost function View(): State<S, M, Q, R, B>
      reads this, requests, responses, buffers
    {
      State(core, messages, requests.items, None, None, responses.items, None,
            free, buffers.items, None, completed, requests.got, allMessages, allBuffers)
    }

    ghost predicate Valid()
      reads this, requests, responses, buffers
    {
      && requests as object != responses as object && requests as object != buffers as object
      && responses as object != buffers as object
      && requests.Valid() && responses.Valid() && buffers.Valid()
      && InOrder(srv, core0, View())
    }

    constructor (srv: Server<S, M, Q, R>, core: S)
      ensures Valid() && this.srv == srv && core0 == core && View() == Start(core)
    {
      this.srv, this.core, this.core0 := srv, core, core;
      requests := new ThreadedQueue();
      responses := new ThreadedQueue();
      buffers := new ThreadedQueue();
      messages, free, completed := [], [], [];
      allMessages, allBuffers := [], [];
    }

    /** The guest posts a message. */
    method PostTMesg(m: M)
      requires Valid()
      modifies this`messages, this`allMessages
      ensures Valid() && messages == old(messages) + [m] && allMessages == old(allMessages) + [m]
    {
      hide InOrder;
      StepKeepsOrder(srv, core0, View(), PostMessage(m));
      messages, allMessages := messages + [m], allMessages + [m];
    }

    /** The guest posts a buffer for a response. */
    method PostRMesg(b: B)
      requires Valid()
      modifies this`free, this`allBuffers
      ensures Valid() && free == old(free) + [b] && allBuffers == old(allBuffers) + [b]
    {
      hide InOrder;
      StepKeepsOrder(srv, core0, View(), PostBuffer(b));
      free, allBuffers := free + [b], allBuffers + [b];
    }

    /** got_data on the TMESG queue: every waiting message is parsed, and queued if it is a request. */
    method GotTMesg()
      requires Valid()
      modifies this`messages, requests
      ensures Valid() && messages == [] && requests.got == old(requests.got)
      ensures requests.put == old(requests.put) + Parsed(srv, old(messages))
    {
      hide InOrder;
      while messages != []
        invariant Valid() && requests.got == old(requests.got)
        invariant requests.put + Parsed(srv, messages) == old(requests.put) + Parsed(srv, old(messages))
        decreases |messages|
      {
        ghost var before := View();
        StepKeepsOrder(srv, core0, before, Event<M, B>.FetchMessage);
        var parsed := srv.parse(messages[0]);
        ConcatAssociates(requests.put, AsSeq(parsed), Parsed(srv, messages[1..]));
        messages := messages[1..];
        if parsed.Some? {
          requests.Put(parsed.value);
        }
        assert requests.items == before.requests + AsSeq(parsed);
        assert View() == Step(srv, before, Event<M, B>.FetchMessage);
      }
    }

    /** got_data on the RMESG queue. */
    method GotRMesg()
      requires Valid()
      modifies this`free, buffers
      ensures Valid() && free == [] && buffers.got == old(buffers.got)
      ensures buffers.put == old(buffers.put) + old(free)
    {
      hide InOrder;
      while free != []
        invariant Valid() && buffers.got == old(buffers.got)
        invariant buffers.put + free == old(buffers.put) + old(free)
        decreases |free|
      {
        ghost var before := View();
        StepKeepsOrder(srv, core0, before, Event<M, B>.FetchBuffer);
        var b := free[0];
        free := free[1..];
        buffers.Put(b);
        assert View() == Step(srv, before, Event<M, B>.FetchBuffer);
      }
    }

    /** One round of RequestLoop, when a request is waiting. */
    method RequestRound()
      requires Valid() && |requests.got| < |requests.put|
      modifies this`core, requests, responses
      ensures Valid() && requests.put == old(requests.put) && responses.got == old(responses.got)
      ensures var q := requests.put[|old(requests.got)|];
              var (core', answer) := srv.process(old(core), q);
              && requests.got == old(requests.got) + [q] && core == core'
              && responses.put == old(responses.put) + AsSeq(answer)
    {
      hide InOrder;
      ghost var s0 := View();
      StepKeepsOrder(srv, core0, s0, Event<M, B>.TakeRequest);
      ghost var s1 := Step(srv, s0, Event<M, B>.TakeRequest);
      StepKeepsOrder(srv, core0, s1, Event<M, B>.Process);
      ghost var s2 := Step(srv, s1, Event<M, B>.Process);
      var q := requests.Get();
      var (core', answer) := srv.process(core, q);
      core := core';
      if answer.Some? {
        StepKeepsOrder(srv, core0, s2, Event<M, B>.QueueResponse);
        responses.Put(answer.value);
        assert View() == Step(srv, s2, Event<M, B>.QueueResponse);
      } else {
        assert View() == s2;
      }
    }

    /** One round of ResponseLoop, when a response and a buffer are waiting. */
    method ResponseRound()
      requires Valid() && |responses.got| < |responses.put| && |buffers.got| < |buffers.put|
      modifies this`completed, responses, buffers
      ensures Valid() && responses.put == old(responses.put) && buffers.put == old(buffers.put)
      ensures completed == old(completed) + [(buffers.put[|old(buffers.got)|], responses.put[|old(responses.got)|])]
    {
      hide InOrder;
      ghost var s0 := View();
      StepKeepsOrder(srv, core0, s0, Event<M, B>.TakeResponse);
      ghost var s1 := Step(srv, s0, Event<M, B>.TakeResponse);
      StepKeepsOrder(srv, core0, s1, Event<M, B>.TakeBuffer);
      ghost var s2 := Step(srv, s1, Event<M, B>.TakeBuffer);
      StepKeepsOrder(srv, core0, s2, Event<M, B>.Complete);
      var response := responses.Get();
      var buffer := buffers.Get();
      completed := completed + [(buffer, response)];
      assert View() == Step(srv, s2, Event<M, B>.Complete);
    }
  }
}
