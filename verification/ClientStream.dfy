/**
 The WebSocket client of `packages/client/client.ts` as a state machine: requests are
 opened, frames arrive, consumers pull from stream queues and leave, and the socket
 closes, in any order.  A request is a callback request (a promise with handlers) or a
 stream request (an `AsyncIterableQueue` behind a generator).
 */
module ClientStream {
  import opened Options

  type Id = string

  datatype EventKind = Completed | Cancelled | Failed | Progress

  datatype Event = Event(kind: EventKind, body: string)

  /** A parsed frame; `Unknown` is a frame of another type without a payload. */
  datatype Message =
    | ErrorFrame(id: Id)
    | DoneFrame(id: Id)
    | EventFrame(id: Id, event: Event)
    | Response(id: Id, payload: string)
    | Unknown(id: Id)

  // ----- The queue between frames and pulls -----

  /** What a pull is answered with: an event, the end, or a rejection. */
  datatype Delivery = Value(event: Event) | End | Rejection

  /** `waiting`: a pull is outstanding; `failed`: an error is recorded. */
  datatype Queue = Queue(buffer: seq<Event>, waiting: bool, finished: bool, failed: bool)

  datatype Out = Out(queue: Queue, deliveries: seq<Delivery>)

  const EMPTY_QUEUE := Queue([], false, false, false)

  function Push(q: Queue, e: Event): Out {
    if q.finished then Out(q, [])
    else if q.waiting then Out(q.(waiting := false), [Value(e)])
    else Out(q.(buffer := q.buffer + [e]), [])
  }

  function Finish(q: Queue): Out {
    Out(q.(finished := true, waiting := false), if q.waiting then [End] else [])
  }

  function Fail(q: Queue): Out {
    Out(q.(finished := true, failed := true, waiting := false), if q.waiting then [End] else [])
  }

  function Pull(q: Queue): Out {
    if q.failed then Out(q, [Rejection])
    else if q.buffer != [] then Out(q.(buffer := q.buffer[1..]), [Value(q.buffer[0])])
    else if q.finished then Out(q, [End])
    else Out(q.(waiting := true), [])
  }

  // ----- One request -----

  datatype Kind = Callback | Stream

  datatype Settle = Resolved | Rejected

  /** `pending`: it is in the `pending` map; `over`: a stream's generator has finished.  The rest is
      what happened so far: resolve and reject calls, events handed to its handler, and answers to
      its consumer's pulls. */
  datatype Request = Request(
    kind: Kind, pending: bool, settles: seq<Settle>, handled: seq<Event>, over: bool, queue: Queue, out: seq<Delivery>)

  function Registered(kind: Kind): Request {
    Request(kind, true, [], [], false, EMPTY_QUEUE, [])
  }

  /** A stream request is registered by its consumer's first pull, which then waits: no frame comes in
      between. */
  function Opened(kind: Kind): Request {
    WithQueue(Registered(kind), Pull(EMPTY_QUEUE))
  }

  /** Told the end or a rejection, the generator finishes. */
  predicate Finishes(answers: seq<Delivery>) {
    End in answers || Rejection in answers
  }

  function WithQueue(r: Request, o: Out): Request {
    if r.kind.Stream? then
      r.(queue := o.queue, out := r.out + o.deliveries, over := r.over || Finishes(o.deliveries))
    else r
  }

  /** A pull through the generator: once that has finished, it answers by itself. */
  function PullThrough(r: Request): Request {
    if r.over then r.(out := r.out + [End]) else WithQueue(r, Pull(r.queue))
  }

  function Resolve(r: Request): Request {
    r.(settles := r.settles + [Resolved])
  }

  /** A stream request's `reject` fails its queue. */
  function Reject(r: Request): Request {
    WithQueue(r.(settles := r.settles + [Rejected]), Fail(r.queue))
  }

  predicate IsTerminal(e: Event) {
    !e.kind.Progress?
  }

  /** The handler of a stream request pushes the event and finishes the queue at a terminal one. */
  function Handler(r: Request, e: Event): Request {
    var r1 := WithQueue(r.(handled := r.handled + [e]), Push(r.queue, e));
    if IsTerminal(e) then WithQueue(r1, Finish(r1.queue)) else r1
  }

  /** What `handleMessage` does to the pending request the frame names. */
  function Handle(r: Request, m: Message): Request {
    var removed := r.(pending := false);
    match m
    case ErrorFrame(_) => Reject(removed)
    case DoneFrame(_) => WithQueue(removed, Finish(r.queue))
    case EventFrame(_, e) =>
      if e.kind.Progress? then Handler(r, e)
      else if e.kind.Failed? then Reject(Handler(removed, e))
      else Resolve(Handler(removed, e))
    case Response(_, _) => Resolve(removed)
    case Unknown(_) => r
  }

  // ----- The client -----

  datatype Step =
    | Open(id: Id, kind: Kind)
    | Receive(message: Message)
    | Close                      // the socket's `onclose`
    | Next(id: Id)               // the consumer's further pulls
    | Leave(id: Id)              // the consumer's `return`

  /** Every request ever opened. */
  type Client = map<Id, Request>

  /** A step's effect on the request `id`: the absent one is opened, and only its own steps and
      the closing of the socket touch it. */
  function OnRequest(r: Request, step: Step): Request {
    match step
    case Open(_, _) => r
    case Receive(m) => if r.pending then Handle(r, m) else r
    case Close => if r.pending then Reject(r.(pending := false)) else r
    case Next(_) => if r.kind.Stream? && !r.queue.waiting then PullThrough(r) else r
    case Leave(_) => if r.kind.Stream? then r.(pending := false, over := true) else r
  }

  /** The request a step names; closing names all. */
  predicate Names(step: Step, id: Id) {
    match step
    case Open(i, _) => i == id
    case Receive(m) => m.id == id
    case Close => true
    case Next(i) => i == id
    case Leave(i) => i == id
  }

  function Step1(c: Client, step: Step): Client {
    match step
    case Open(id, kind) => if id in c then c else c[id := Opened(kind)]
    case Close => map id | id in c :: OnRequest(c[id], step)
    case Receive(m) => if m.id in c then c[m.id := OnRequest(c[m.id], step)] else c
    case Next(id) => if id in c then c[id := OnRequest(c[id], step)] else c
    case Leave(id) => if id in c then c[id := OnRequest(c[id], step)] else c
  }

  function Run(steps: seq<Step>): Client {
    if steps == [] then map[] else Step1(Run(steps[..|steps| - 1]), steps[|steps| - 1])
  }

  /** A request is opened once; and a generator takes its consumer's calls one at a time: a pull or a
      departure comes when no pull is waiting. */
  predicate IsPossible(c: Client, step: Step) {
    match step
    case Open(id, _) => id !in c
    case Next(id) => id in c && c[id].kind.Stream? && !c[id].queue.waiting
    case Leave(id) => id in c && c[id].kind.Stream? && !c[id].queue.waiting
    case _ => true
  }

  predicate IsRun(steps: seq<Step>) {
    steps == [] || (IsRun(steps[..|steps| - 1]) && IsPossible(Run(steps[..|steps| - 1]), steps[|steps| - 1]))
  }

  // ----- Requests do not disturb each other -----

  function Only(steps: seq<Step>, id: Id): seq<Step> {
    if steps == [] then []
    else
      var init := Only(steps[..|steps| - 1], id);
      if Names(steps[|steps| - 1], id) then init + [steps[|steps| - 1]] else init
  }

  /** Both clients know the request alike. */
  predicate SameRequest(c: Client, d: Client, id: Id) {
    (id in c <==> id in d) && (id in c ==> c[id] == d[id])
  }

  /** A step that does not name a request leaves it as it is. */
  lemma StepLeaves(c: Client, step: Step, id: Id)
    requires !Names(step, id)
    ensures SameRequest(Step1(c, step), c, id)
  {
  }

  /** What a step does to a request depends on that request only. */
  lemma StepDepends(c: Client, d: Client, step: Step, id: Id)
    requires SameRequest(c, d, id)
    ensures SameRequest(Step1(c, step), Step1(d, step), id)
  {
  }

  /** A request's whole history is determined by its own steps: whatever other requests are opened,
      receive, pull or leave in between changes nothing for it. */
  lemma {:induction false} Isolated(steps: seq<Step>, id: Id)
    ensures SameRequest(Run(steps), Run(Only(steps, id)), id)
  {
    if steps != [] {
      var init, last := steps[..|steps| - 1], steps[|steps| - 1];
      Isolated(init, id);
      if Names(last, id) {
        StepDepends(Run(init), Run(Only(init, id)), last, id);
        RunAppend(Only(init, id), last);
      } else {
        StepLeaves(Run(init), last, id);
      }
    }
  }

  lemma RunAppend(steps: seq<Step>, step: Step)
    ensures Run(steps + [step]) == Step1(Run(steps), step)
  {
    assert (steps + [step])[..|steps + [step]| - 1] == steps;
  }

  // ----- What a request's own steps amount to -----

  /** How a request ends. */
  datatype Ending = Running | ByResult | ByErrorEvent | ByErrorFrame | ByDoneFrame | ByResponse | ByClose | ByLeaving

  function EndingOf(kind: Kind, step: Step): Ending {
    match step
    case Receive(ErrorFrame(_)) => ByErrorFrame
    case Receive(DoneFrame(_)) => ByDoneFrame
    case Receive(EventFrame(_, e)) =>
      if e.kind.Progress? then Running else if e.kind.Failed? then ByErrorEvent else ByResult
    case Receive(Response(_, _)) => ByResponse
    case Close => ByClose
    case Leave(_) => if kind.Stream? then ByLeaving else Running
    case _ => Running
  }

  /** Read from the front: the first step that ends the request. */
  function FirstEnding(kind: Kind, steps: seq<Step>): Ending {
    if steps == [] then Running
    else if !EndingOf(kind, steps[0]).Running? then EndingOf(kind, steps[0])
    else FirstEnding(kind, steps[1..])
  }

  /** Read from the front: the event frames up to the first step that ends the request, a terminal
      event included. */
  function Offered(kind: Kind, steps: seq<Step>): seq<Event> {
    if steps == [] then []
    else EventsOf(steps[0]) + (if EndingOf(kind, steps[0]).Running? then Offered(kind, steps[1..]) else [])
  }

  function EventsOf(step: Step): seq<Event> {
    if step.Receive? && step.message.EventFrame? then [step.message.event] else []
  }

  lemma {:induction false} EndingAppend(kind: Kind, steps: seq<Step>, step: Step)
    ensures FirstEnding(kind, steps + [step])
         == if FirstEnding(kind, steps).Running? then EndingOf(kind, step) else FirstEnding(kind, steps)
  {
    if steps == [] {
      assert [] + [step] == [step];
    } else {
      EndingAppend(kind, steps[1..], step);
      assert (steps + [step])[1..] == steps[1..] + [step];
    }
  }

  lemma {:induction false} OfferedAppend(kind: Kind, steps: seq<Step>, step: Step)
    ensures Offered(kind, steps + [step])
         == Offered(kind, steps) + (if FirstEnding(kind, steps).Running? then EventsOf(step) else [])
  {
    if steps == [] {
      assert [] + [step] == [step];
    } else {
      var rest, last := steps[1..], if FirstEnding(kind, steps).Running? then EventsOf(step) else [];
      assert (steps + [step])[0] == steps[0] && (steps + [step])[1..] == rest + [step];
      if EndingOf(kind, steps[0]).Running? {
        OfferedAppend(kind, rest, step);
        assert EventsOf(steps[0]) + (Offered(kind, rest) + last) == EventsOf(steps[0]) + Offered(kind, rest) + last;
      } else {
        assert EventsOf(steps[0]) + [] + last == EventsOf(steps[0]) + [];
      }
    }
  }

  /** A request after its own steps. */
  function Own(kind: Kind, steps: seq<Step>): Request {
    if steps == [] then Opened(kind) else OnRequest(Own(kind, steps[..|steps| - 1]), steps[|steps| - 1])
  }

  function Values(out: seq<Delivery>): seq<Event> {
    if out == [] then []
    else if out[|out| - 1].Value? then Values(out[..|out| - 1]) + [out[|out| - 1].event]
    else Values(out[..|out| - 1])
  }

  function SettlesFor(ending: Ending): seq<Settle> {
    match ending
    case ByResult => [Resolved]
    case ByResponse => [Resolved]
    case ByErrorEvent => [Rejected]
    case ByErrorFrame => [Rejected]
    case ByClose => [Rejected]
    case _ => []
  }

  predicate FailedBy(ending: Ending) {
    ending in {ByErrorEvent, ByErrorFrame, ByClose}
  }

  predicate FinishedBy(ending: Ending) {
    FailedBy(ending) || ending in {ByResult, ByDoneFrame}
  }

  /** The consumer left. */
  predicate HasLeft(steps: seq<Step>) {
    exists i :: 0 <= i < |steps| && steps[i].Leave?
  }

  /** What the queue knows: a waiting consumer means an empty buffer and an unfinished queue; the
      generator finishes when its consumer leaves, and otherwise only when nothing is buffered,
      unless the queue failed; and what was delivered and what is buffered are together what was
      offered. */
  ghost predicate QueueTells(r: Request, ending: Ending, offered: seq<Event>, left: bool) {
    && (r.queue.waiting ==> r.queue.buffer == [] && !r.queue.finished)
    && r.queue.failed == FailedBy(ending)
    && r.queue.finished == FinishedBy(ending)
    && (left ==> r.over)
    && (r.over && !left ==> r.queue.finished && (r.queue.failed || r.queue.buffer == []))
    && (Finishes(r.out) ==> r.over)
    && Values(r.out) + r.queue.buffer == offered
  }

  /** The state of a request as a function of the whole of its own history. */
  ghost predicate Tells(r: Request, kind: Kind, ending: Ending, offered: seq<Event>, left: bool) {
    && r.kind == kind
    && r.pending == ending.Running?
    && r.settles == SettlesFor(ending)
    && r.handled == offered
    && (kind.Stream? ==> QueueTells(r, ending, offered, left) && (left ==> !ending.Running?) && (ending.ByLeaving? ==> left))
    && (kind.Callback? ==> r.queue == EMPTY_QUEUE && r.out == [] && !r.over)
  }

  lemma ValuesAppend(out: seq<Delivery>, more: seq<Delivery>)
    requires |more| <= 1
    ensures Values(out + more) == Values(out) + (if more != [] && more[0].Value? then [more[0].event] else [])
  {
    if more == [] {
      assert out + more == out;
    } else {
      assert (out + more)[..|out + more| - 1] == out;
    }
  }

  /** One queue operation: what it delivers and what it leaves buffered. */
  ghost predicate Keeps(r: Request, r': Request) {
    Values(r'.out) + r'.queue.buffer == Values(r.out) + r.queue.buffer
  }

  lemma PushTells(r: Request, e: Event)
    requires r.kind.Stream? && !r.queue.finished && (r.queue.waiting ==> r.queue.buffer == [])
    ensures var r' := WithQueue(r, Push(r.queue, e));
      && Values(r'.out) + r'.queue.buffer == Values(r.out) + r.queue.buffer + [e]
      && (Finishes(r'.out) ==> Finishes(r.out)) && r'.over == r.over
      && !r'.queue.waiting && r'.queue.failed == r.queue.failed && !r'.queue.finished
  {
    var o := Push(r.queue, e);
    ValuesAppend(r.out, o.deliveries);
    FinishesAppend(r.out, o.deliveries);
    if r.queue.waiting {
      assert r.queue.buffer == [] && Values(r.out) + [] == Values(r.out);
    } else {
      assert Values(r.out) + [] == Values(r.out);
      assert Values(r.out) + (r.queue.buffer + [e]) == Values(r.out) + r.queue.buffer + [e];
    }
  }

  lemma FinishesAppend(out: seq<Delivery>, more: seq<Delivery>)
    ensures Finishes(out + more) <==> Finishes(out) || Finishes(more)
  {
  }

  lemma StopTells(r: Request, o: Out)
    requires r.kind.Stream? && (o == Finish(r.queue) || o == Fail(r.queue))
    ensures var r' := WithQueue(r, o);
      && Keeps(r, r') && !r'.queue.waiting && r'.queue.finished && r'.queue.buffer == r.queue.buffer
      && r'.over == (r.over || r.queue.waiting) && (Finishes(r'.out) ==> Finishes(r.out) || r.queue.waiting)
  {
    ValuesAppend(r.out, o.deliveries);
  }

  lemma PullTells(r: Request, ending: Ending, offered: seq<Event>, left: bool)
    requires r.kind.Stream? && !r.queue.waiting && QueueTells(r, ending, offered, left)
    ensures QueueTells(PullThrough(r), ending, offered, left)
  {
    var q, o := r.queue, Pull(r.queue);
    var r' := PullThrough(r);
    ValuesAppend(r.out, if r.over then [End] else o.deliveries);
    if !r.over && !q.failed && q.buffer != [] {
      assert o.deliveries == [Value(q.buffer[0])];
      TakeFirst(Values(r.out), q.buffer);
      assert Finishes(r'.out) ==> Finishes(r.out);
    } else {
      assert r'.queue.buffer == q.buffer;
      assert Values(r'.out) == Values(r.out) + [];
    }
  }

  lemma TakeFirst(before: seq<Event>, buffer: seq<Event>)
    requires buffer != []
    ensures before + [buffer[0]] + buffer[1..] == before + buffer
  {
  }

  lemma RejectTells(r: Request, offered: seq<Event>, before: Ending, ending: Ending)
    requires FailedBy(ending) && !r.pending && r.settles == [] && r.handled == offered
    requires r.kind.Stream? ==> QueueTells(r, before, offered, false)
    requires r.kind.Callback? ==> r.queue == EMPTY_QUEUE && r.out == [] && !r.over
    ensures Tells(Reject(r), r.kind, ending, offered, false)
  {
    if r.kind.Stream? { StopTells(r, Fail(r.queue)); }
  }

  lemma HandlerTells(r: Request, offered: seq<Event>, e: Event)
    requires r.handled == offered
    requires r.kind.Stream? ==> QueueTells(r, Running, offered, false)
    ensures var r' := Handler(r, e);
      && r'.handled == offered + [e] && r'.settles == r.settles && r'.pending == r.pending && r'.kind == r.kind
      && (r.kind.Stream? ==> QueueTells(r', if IsTerminal(e) then ByResult else Running, offered + [e], false))
      && (r.kind.Callback? ==> r'.queue == r.queue && r'.out == r.out && r'.over == r.over)
  {
    if r.kind.Stream? {
      var r0 := r.(handled := r.handled + [e]);
      PushTells(r0, e);
      var r1 := WithQueue(r0, Push(r.queue, e));
      if IsTerminal(e) { StopTells(r1, Finish(r1.queue)); }
    }
  }

  lemma HandleTells(r: Request, kind: Kind, offered: seq<Event>, m: Message)
    requires Tells(r, kind, Running, offered, false)
    ensures Tells(Handle(r, m), kind, EndingOf(kind, Receive(m)), offered + EventsOf(Receive(m)), false)
  {
    var removed := r.(pending := false);
    match m
    case ErrorFrame(_) => RejectTells(removed, offered, Running, ByErrorFrame);
      assert offered + [] == offered;
    case DoneFrame(_) =>
      if kind.Stream? { StopTells(removed, Finish(r.queue)); }
      assert offered + [] == offered;
    case EventFrame(_, e) =>
      HandlerTells(if e.kind.Progress? then r else removed, offered, e);
      if e.kind.Failed? { RejectTells(Handler(removed, e), offered + [e], ByResult, ByErrorEvent); }
    case Response(_, _) => assert offered + [] == offered;
    case Unknown(_) => assert offered + [] == offered;
  }

  /** After any number of its own steps, a request's state is exactly what its first ending and the
      events before it say.  In particular it was settled at most once, and its handler ran for no
      event after the ending. */
  lemma {:induction false} OwnTells(kind: Kind, steps: seq<Step>)
    requires forall i :: 0 <= i < |steps| ==> !steps[i].Open?
    ensures Tells(Own(kind, steps), kind, FirstEnding(kind, steps), Offered(kind, steps), HasLeft(steps))
  {
    if steps != [] {
      var init, last := steps[..|steps| - 1], steps[|steps| - 1];
      OwnTells(kind, init);
      EndingAppend(kind, init, last);
      OfferedAppend(kind, init, last);
      LeftAppend(init, last);
      assert steps == init + [last];
      StepTells(Own(kind, init), kind, FirstEnding(kind, init), Offered(kind, init), HasLeft(init), last);
      OwnAppend(kind, init, last);
    }
  }

  lemma OwnAppend(kind: Kind, steps: seq<Step>, step: Step)
    ensures Own(kind, steps + [step]) == OnRequest(Own(kind, steps), step)
  {
    assert (steps + [step])[..|steps|] == steps;
  }

  lemma LeftAppend(steps: seq<Step>, step: Step)
    ensures HasLeft(steps + [step]) <==> HasLeft(steps) || step.Leave?
  {
    assert (steps + [step])[|steps|] == step;
    assert forall i :: 0 <= i < |steps| ==> (steps + [step])[i] == steps[i];
  }

  lemma StepTells(r: Request, kind: Kind, ending: Ending, offered: seq<Event>, left: bool, step: Step)
    requires Tells(r, kind, ending, offered, left) && !step.Open?
    ensures var ending' := if ending.Running? then EndingOf(kind, step) else ending;
      Tells(OnRequest(r, step), kind, ending', offered + (if ending.Running? then EventsOf(step) else []),
            left || step.Leave?)
  {
    assert offered + [] == offered;
    match step
    case Receive(m) => if r.pending { HandleTells(r, kind, offered, m); }
    case Close => if r.pending { RejectTells(r.(pending := false), offered, Running, ByClose); }
    case Next(_) => if kind.Stream? && !r.queue.waiting { PullTells(r, ending, offered, left); }
    case Leave(_) =>
  }

  // ----- Whole runs -----

  datatype Past = Past(kind: Kind, steps: seq<Step>)

  /** The steps that name a request since it was opened. */
  function History(steps: seq<Step>, id: Id): Option<Past> {
    if steps == [] then None
    else
      var past, last := History(steps[..|steps| - 1], id), steps[|steps| - 1];
      if !Names(last, id) then past
      else if past.None? then (if last.Open? then Some(Past(last.kind, [])) else None)
      else if last.Open? then past
      else Some(past.value.(steps := past.value.steps + [last]))
  }

  lemma {:induction false} RunIsHistory(steps: seq<Step>, id: Id)
    ensures id in Run(steps) <==> History(steps, id).Some?
    ensures id in Run(steps) ==>
      var past := History(steps, id).value;
      Run(steps)[id] == Own(past.kind, past.steps) && forall i :: 0 <= i < |past.steps| ==> !past.steps[i].Open?
  {
    if steps != [] {
      var init, last := steps[..|steps| - 1], steps[|steps| - 1];
      RunIsHistory(init, id);
      if !Names(last, id) {
        StepLeaves(Run(init), last, id);
      } else if id in Run(init) && !last.Open? {
        var own := History(init, id).value.steps;
        assert (own + [last])[..|own + [last]| - 1] == own;
      }
    }
  }

  /** In every interleaving, the state of every request is what its own history says. */
  lemma EveryRequestTells(steps: seq<Step>, id: Id)
    requires id in Run(steps)
    ensures History(steps, id).Some?
    ensures var past := History(steps, id).value;
      Tells(Run(steps)[id], past.kind, FirstEnding(past.kind, past.steps), Offered(past.kind, past.steps),
            HasLeft(past.steps))
  {
    RunIsHistory(steps, id);
    OwnTells(History(steps, id).value.kind, History(steps, id).value.steps);
  }

  /** The events a stream yields are a prefix, in order, of the event frames up to its first ending,
      and all of them once a consumer that did not leave is told the end after a result or a `done`
      frame. */
  lemma StreamYieldsPrefix(steps: seq<Step>, id: Id)
    requires id in Run(steps) && Run(steps)[id].kind.Stream?
    ensures History(steps, id).Some?
    ensures var r := Run(steps)[id]; var past := History(steps, id).value; var offered := Offered(Stream, past.steps);
      && Values(r.out) <= offered
      && (End in r.out && !HasLeft(past.steps) && FirstEnding(Stream, past.steps) in {ByResult, ByDoneFrame} ==>
            Values(r.out) == offered)
  {
    EveryRequestTells(steps, id);
  }

  /** Every request is settled at most once, never while it is pending. */
  lemma SettledAtMostOnce(steps: seq<Step>, id: Id)
    requires id in Run(steps)
    ensures |Run(steps)[id].settles| <= 1
    ensures Run(steps)[id].pending ==> Run(steps)[id].settles == []
  {
    EveryRequestTells(steps, id);
  }

  /** Once a request is out of the pending map, no frame, close or departure settles it, runs its
      handler or reaches its queue; a departure finishes its generator. */
  lemma RemovedIsLeftAlone(c: Client, step: Step, id: Id)
    requires id in c && !c[id].pending && !step.Next?
    ensures id in Step1(c, step)
    ensures Step1(c, step)[id] == c[id].(over := c[id].over || (c[id].kind.Stream? && step == Leave(id)))
  {
  }

  lemma NothingPendingAfterClose(c: Client)
    ensures forall id :: id in Step1(c, Close) ==> !Step1(c, Close)[id].pending
  {
  }

  // ----- Pull by pull -----

  function Min(a: nat, b: nat): nat {
    if a <= b then a else b
  }

  function Given(events: seq<Event>): (r: seq<Delivery>)
    ensures |r| == |events| && forall i :: 0 <= i < |r| ==> r[i] == Value(events[i])
  {
    seq(|events|, i requires 0 <= i < |events| => Value(events[i]))
  }

  function Ends(n: nat): (r: seq<Delivery>)
    ensures |r| == n && forall i :: 0 <= i < n ==> r[i] == End
  {
    seq(n, _ => End)
  }

  /** The pulls so far, the first one, which opened the stream, included. */
  function PullsMade(own: seq<Step>): nat {
    if own == [] then 1 else PullsMade(own[..|own| - 1]) + (if own[|own| - 1].Next? then 1 else 0)
  }

  predicate IsFinishing(ending: Ending) {
    ending in {ByResult, ByDoneFrame}
  }

  /** The pulls, one by one, are given the events that were offered; when there are more pulls than
      events, the last pull waits, and if a result or a `done` frame ended the stream all of them are
      told the end. */
  ghost predicate PullsAreServed(r: Request, pulls: nat, offered: seq<Event>, ending: Ending) {
    var served := Min(pulls, |offered|);
    && r.out == Given(offered[..served]) + Ends(if IsFinishing(ending) then pulls - served else 0)
    && (r.queue.waiting <==> pulls > |offered| && !IsFinishing(ending))
    && (!IsFinishing(ending) ==> pulls <= |offered| + 1)
    && r.queue.buffer == offered[served..]
  }

  lemma EventServes(r: Request, pulls: nat, offered: seq<Event>, e: Event)
    requires r.kind.Stream? && !r.queue.finished && PullsAreServed(r, pulls, offered, Running)
    ensures PullsAreServed(WithQueue(r, Push(r.queue, e)), pulls, offered + [e], Running)
  {
    var more := offered + [e];
    if r.queue.waiting {
      assert offered[..|offered|] == offered && more[..|more|] == more;
      assert Given(more) == Given(offered) + [Value(e)];
      assert Given(offered) + Ends(0) == Given(offered) && Given(more) + Ends(0) == Given(more);
    } else {
      assert more[..pulls] == offered[..pulls] && more[pulls..] == offered[pulls..] + [e];
      assert r.out + [] == r.out;
    }
  }

  lemma FinishServes(r: Request, pulls: nat, offered: seq<Event>, ending: Ending)
    requires r.kind.Stream? && PullsAreServed(r, pulls, offered, Running) && IsFinishing(ending)
    ensures PullsAreServed(WithQueue(r, Finish(r.queue)), pulls, offered, ending)
  {
    var served := Min(pulls, |offered|);
    assert Given(offered[..served]) + Ends(0) == Given(offered[..served]);
    if r.queue.waiting {
      assert Ends(1) == [End];
    } else {
      assert r.out + [] == r.out;
    }
  }

  lemma PullServes(r: Request, pulls: nat, offered: seq<Event>, ending: Ending)
    requires r.kind.Stream? && !r.queue.waiting && !FailedBy(ending)
    requires PullsAreServed(r, pulls, offered, ending) && QueueTells(r, ending, offered, false)
    ensures PullsAreServed(PullThrough(r), pulls + 1, offered, ending)
  {
    var served, ends := Min(pulls, |offered|), if IsFinishing(ending) then pulls - Min(pulls, |offered|) else 0;
    if pulls < |offered| {
      assert offered[..pulls + 1] == offered[..pulls] + [offered[pulls]];
      assert Given(offered[..pulls + 1]) == Given(offered[..pulls]) + [Value(offered[pulls])];
      assert forall out: seq<Delivery> :: out + Ends(0) == out;
      assert offered[pulls..][1..] == offered[pulls + 1..];
    } else if IsFinishing(ending) {
      assert Ends(ends + 1) == Ends(ends) + [End];
      assert r.out + [End] == Given(offered[..served]) + (Ends(ends) + [End]);
    } else {
      assert r.out + [] == r.out;
    }
  }

  lemma HandlerServes(r: Request, pulls: nat, offered: seq<Event>, e: Event)
    requires r.kind.Stream? && !r.queue.finished && PullsAreServed(r, pulls, offered, Running)
    ensures PullsAreServed(Handler(r, e), pulls, offered + [e], if IsTerminal(e) then ByResult else Running)
  {
    var r0 := r.(handled := r.handled + [e]);
    EventServes(r0, pulls, offered, e);
    if IsTerminal(e) { FinishServes(WithQueue(r0, Push(r0.queue, e)), pulls, offered + [e], ByResult); }
  }

  lemma FrameServes(r: Request, pulls: nat, offered: seq<Event>, m: Message)
    requires r.kind.Stream? && !r.queue.finished && PullsAreServed(r, pulls, offered, Running)
    requires !FailedBy(EndingOf(Stream, Receive(m)))
    ensures PullsAreServed(Handle(r, m), pulls, offered + EventsOf(Receive(m)), EndingOf(Stream, Receive(m)))
  {
    assert offered + [] == offered;
    match m
    case EventFrame(_, e) => HandlerServes(if e.kind.Progress? then r else r.(pending := false), pulls, offered, e);
    case DoneFrame(_) => FinishServes(r.(pending := false), pulls, offered, ByDoneFrame);
    case _ =>
  }

  /** What a step of a stream that has neither failed nor been left does to its answers. */
  lemma StepServes(r: Request, pulls: nat, offered: seq<Event>, ending: Ending, step: Step)
    requires r.kind.Stream? && Tells(r, Stream, ending, offered, false) && !step.Open? && !step.Leave?
    requires PullsAreServed(r, pulls, offered, ending) && (step.Next? ==> !r.queue.waiting)
    requires !FailedBy(ending) && !(ending.Running? && FailedBy(EndingOf(Stream, step)))
    ensures PullsAreServed(OnRequest(r, step), pulls + (if step.Next? then 1 else 0),
                           if ending.Running? then offered + EventsOf(step) else offered,
                           if ending.Running? then EndingOf(Stream, step) else ending)
  {
    assert offered + [] == offered;
    if step.Next? {
      PullServes(r, pulls, offered, ending);
    } else if step.Receive? && r.pending {
      FrameServes(r, pulls, offered, step.message);
    }
  }

  ghost predicate IsServed(r: Request, own: seq<Step>) {
    !FailedBy(FirstEnding(Stream, own)) && !HasLeft(own) ==>
      PullsAreServed(r, PullsMade(own), Offered(Stream, own), FirstEnding(Stream, own))
  }

  lemma OwnStepServes(r: Request, own: seq<Step>, step: Step)
    requires Tells(r, Stream, FirstEnding(Stream, own), Offered(Stream, own), HasLeft(own)) && IsServed(r, own)
    requires !step.Open? && (step.Next? ==> !r.queue.waiting)
    ensures IsServed(OnRequest(r, step), own + [step])
  {
    LeftAppend(own, step);
    OwnGrows(own, step);
    if !FailedBy(FirstEnding(Stream, own + [step])) && !HasLeft(own + [step]) {
      StepServes(r, PullsMade(own), Offered(Stream, own), FirstEnding(Stream, own), step);
    }
  }

  lemma OwnGrows(own: seq<Step>, step: Step)
    ensures var ending := FirstEnding(Stream, own); var more := own + [step];
      && PullsMade(more) == PullsMade(own) + (if step.Next? then 1 else 0)
      && Offered(Stream, more) == (if ending.Running? then Offered(Stream, own) + EventsOf(step) else Offered(Stream, own))
      && FirstEnding(Stream, more) == (if ending.Running? then EndingOf(Stream, step) else ending)
  {
    EndingAppend(Stream, own, step);
    OfferedAppend(Stream, own, step);
    assert (own + [step])[..|own|] == own && Offered(Stream, own) + [] == Offered(Stream, own);
  }

  /** In every run, until its stream fails or its consumer leaves: the i-th pull is given the i-th event,
      at once when that was offered before and otherwise as soon as it is; a pull without an event
      waits, and is told the end when the stream is finished. */
  lemma {:induction false} EveryPullIsServed(steps: seq<Step>, id: Id)
    requires IsRun(steps) && id in Run(steps) && Run(steps)[id].kind.Stream?
    ensures History(steps, id).Some? && IsServed(Run(steps)[id], History(steps, id).value.steps)
    decreases |steps|
  {
    EveryRequestTells(steps, id);
    var init, last := steps[..|steps| - 1], steps[|steps| - 1];
    if id !in Run(init) {
      RunIsHistory(init, id);
      OpenIsServed();
    } else {
      EveryRequestTells(init, id);
      if Names(last, id) {
        EveryPullIsServed(init, id);
        OwnStepServes(Run(init)[id], History(init, id).value.steps, last);
      } else {
        StepLeaves(Run(init), last, id);
        EveryPullIsServed(init, id);
      }
    }
  }

  lemma OpenIsServed()
    ensures PullsAreServed(Opened(Stream), PullsMade([]), Offered(Stream, []), FirstEnding(Stream, []))
  {
  }

  /** One more pull of a running stream: it is given the next event if one is left, told the end if the
      stream was finished, and else waits. */
  lemma NextPull(steps: seq<Step>, id: Id)
    requires IsRun(steps + [Next(id)]) && id in Run(steps)
    requires var own := History(steps, id); own.Some? && !FailedBy(FirstEnding(Stream, own.value.steps)) && !HasLeft(own.value.steps)
    ensures id in Run(steps + [Next(id)])
    ensures var own := History(steps, id).value.steps; var offered := Offered(Stream, own);
      var r, r' := Run(steps)[id], Run(steps + [Next(id)])[id];
      if |Values(r.out)| < |offered| then r'.out == r.out + [Value(offered[|Values(r.out)|])] && !r'.queue.waiting
      else if IsFinishing(FirstEnding(Stream, own)) then r'.out == r.out + [End] && !r'.queue.waiting
      else r'.out == r.out && r'.queue.waiting
  {
    RunOn(steps, [Next(id)]);
    assert [Next(id)][..0] == [] && steps + [] == steps;
    EveryPullIsServed(steps, id);
    var own := History(steps, id).value.steps;
    var r, pulls, offered := Run(steps)[id], PullsMade(own), Offered(Stream, own);
    var served := Min(pulls, |offered|);
    ValuesGiven(offered[..served], if IsFinishing(FirstEnding(Stream, own)) then pulls - served else 0);
    EveryRequestTells(steps, id);
    PullServes(r, pulls, offered, FirstEnding(Stream, own));
  }

  lemma {:induction false} ValuesGiven(events: seq<Event>, n: nat)
    ensures Values(Given(events) + Ends(n)) == events
    decreases n, |events|
  {
    var all := Given(events) + Ends(n);
    if n > 0 {
      ValuesGiven(events, n - 1);
      assert all == (Given(events) + Ends(n - 1)) + [End];
      ValuesAppend(Given(events) + Ends(n - 1), [End]);
    } else if events != [] {
      var init, last := events[..|events| - 1], events[|events| - 1];
      ValuesGiven(init, 0);
      assert all == (Given(init) + Ends(0)) + [Value(last)];
      ValuesAppend(Given(init) + Ends(0), [Value(last)]);
    } else {
      assert all == [];
    }
  }

  // ----- Failing streams -----

  /** How often a step sequence pulls from a stream. */
  function Pulls(steps: seq<Step>, id: Id): nat {
    if steps == [] then 0 else Pulls(steps[..|steps| - 1], id) + (if steps[|steps| - 1] == Next(id) then 1 else 0)
  }

  /** A failed stream's generator has finished: it had before, or its consumer called since. */
  predicate OverAfter(steps: seq<Step>, id: Id, over: bool) {
    over || Next(id) in steps || Leave(id) in steps
  }

  /** How a failed stream answers. */
  function Answers(steps: seq<Step>, id: Id, over: bool): seq<Delivery> {
    if steps == [] then []
    else
      var init := steps[..|steps| - 1];
      Answers(init, id, over) + NextAnswer(steps, id, over)
  }

  /** The answer to the last step, if that is a pull. */
  function NextAnswer(steps: seq<Step>, id: Id, over: bool): (r: seq<Delivery>)
    requires steps != []
    ensures |r| == (if steps[|steps| - 1] == Next(id) then 1 else 0) && forall i :: 0 <= i < |r| ==> !r[i].Value?
  {
    if steps[|steps| - 1] != Next(id) then []
    else if OverAfter(steps[..|steps| - 1], id, over) then [End]
    else [Rejection]
  }

  /** The consumer leaves before it pulls. */
  predicate LeavesFirst(steps: seq<Step>, id: Id) {
    exists i :: 0 <= i < |steps| && steps[i] == Leave(id) && Next(id) !in steps[..i]
  }

  /** At most one rejection, and then the end: the first pull is rejected unless the generator had
      finished or the consumer left before it. */
  lemma {:induction false} RejectedAtMostOnce(steps: seq<Step>, id: Id, over: bool)
    ensures |Answers(steps, id, over)| == Pulls(steps, id)
    ensures Pulls(steps, id) > 0 <==> Next(id) in steps
    ensures forall i :: 0 < i < Pulls(steps, id) ==> Answers(steps, id, over)[i] == End
    ensures Pulls(steps, id) > 0 ==>
      Answers(steps, id, over)[0] == if over || LeavesFirst(steps, id) then End else Rejection
    decreases |steps|
  {
    if steps != [] {
      var init, last := steps[..|steps| - 1], steps[|steps| - 1];
      RejectedAtMostOnce(init, id, over);
      assert steps == init + [last];
      LeavesFirstIff(init, last, id);
    }
  }

  lemma LeavesFirstIff(init: seq<Step>, last: Step, id: Id)
    ensures LeavesFirst(init + [last], id) <==> LeavesFirst(init, id) || (last == Leave(id) && Next(id) !in init)
    ensures Next(id) !in init ==> (LeavesFirst(init, id) <==> Leave(id) in init)
  {
    var steps := init + [last];
    if LeavesFirst(steps, id) {
      var i :| 0 <= i < |steps| && steps[i] == Leave(id) && Next(id) !in steps[..i];
      if i < |init| { assert steps[..i] == init[..i] && init[i] == Leave(id); } else { assert steps[..i] == init; }
    }
    if LeavesFirst(init, id) {
      var i :| 0 <= i < |init| && init[i] == Leave(id) && Next(id) !in init[..i];
      assert steps[..i] == init[..i] && steps[i] == Leave(id);
    }
    if last == Leave(id) && Next(id) !in init { assert steps[..|init|] == init && steps[|init|] == Leave(id); }
    if Next(id) !in init && Leave(id) in init {
      var i :| 0 <= i < |init| && init[i] == Leave(id);
      assert Next(id) !in init[..i];
    }
  }

  lemma {:induction false} ValuesOfAnswers(out: seq<Delivery>, steps: seq<Step>, id: Id, over: bool)
    ensures Values(out + Answers(steps, id, over)) == Values(out)
    decreases |steps|
  {
    if steps == [] {
      assert out + Answers(steps, id, over) == out;
    } else {
      var init := steps[..|steps| - 1];
      ValuesOfAnswers(out, init, id, over);
      var answers, last := Answers(init, id, over), NextAnswer(steps, id, over);
      assert out + (answers + last) == (out + answers) + last;
      ValuesAppend(out + answers, last);
    }
  }

  lemma RunOn(steps: seq<Step>, more: seq<Step>)
    requires more != []
    ensures Run(steps + more) == Step1(Run(steps + more[..|more| - 1]), more[|more| - 1])
    ensures IsRun(steps + more) ==>
      IsRun(steps + more[..|more| - 1]) && IsPossible(Run(steps + more[..|more| - 1]), more[|more| - 1])
  {
    var init, last := steps + more[..|more| - 1], more[|more| - 1];
    RunAppend(init, last);
    assert steps + more == init + [last];
    assert (steps + more)[..|steps + more| - 1] == init;
  }

  /** Whatever follows a stream's failure, its consumer gets these answers and nothing else happens to
      it. */
  lemma {:induction false} FailedStaysFailed(steps: seq<Step>, id: Id, more: seq<Step>)
    requires id in Run(steps)
    requires var r := Run(steps)[id]; r.kind.Stream? && !r.pending && r.queue.failed && !r.queue.waiting
    ensures id in Run(steps + more) && HasFailed(Run(steps)[id], Run(steps + more)[id], more, id)
    decreases |more|
  {
    var r := Run(steps)[id];
    if more == [] {
      assert steps + more == steps;
      assert r.out + Answers([], id, r.over) == r.out;
    } else {
      var init, last := more[..|more| - 1], more[|more| - 1];
      FailedStaysFailed(steps, id, init);
      RunOn(steps, more);
      assert more == init + [last];
      FailedStep(Run(steps + init), r, id, init, last);
    }
  }

  /** The stream `r` failed, and these steps followed. */
  predicate HasFailed(r: Request, now: Request, steps: seq<Step>, id: Id) {
    && r.kind.Stream? && !r.pending && r.queue.failed && !r.queue.waiting
    && now == r.(out := r.out + Answers(steps, id, r.over), over := OverAfter(steps, id, r.over))
  }

  lemma FailedPull(r: Request, now: Request, id: Id, init: seq<Step>)
    requires HasFailed(r, now, init, id)
    ensures HasFailed(r, OnRequest(now, Next(id)), init + [Next(id)], id)
  {
    var more, answers := init + [Next(id)], Answers(init, id, r.over);
    assert more[..|more| - 1] == init;
    OverGrows(init, Next(id), id, r.over);
    assert r.out + (answers + NextAnswer(more, id, r.over)) == r.out + answers + NextAnswer(more, id, r.over);
  }

  lemma FailedOther(r: Request, now: Request, id: Id, init: seq<Step>, last: Step)
    requires HasFailed(r, now, init, id) && last != Next(id)
    ensures HasFailed(r, now.(over := now.over || last == Leave(id)), init + [last], id)
  {
    var more := init + [last];
    assert more[..|more| - 1] == init;
    OverGrows(init, last, id, r.over);
    assert Answers(init, id, r.over) + [] == Answers(init, id, r.over);
  }

  lemma FailedStep(c: Client, r: Request, id: Id, init: seq<Step>, last: Step)
    requires id in c && HasFailed(r, c[id], init, id)
    ensures id in Step1(c, last) && HasFailed(r, Step1(c, last)[id], init + [last], id)
  {
    if last == Next(id) {
      FailedPull(r, c[id], id, init);
    } else {
      FailedOther(r, c[id], id, init, last);
      if Names(last, id) { RemovedIsLeftAlone(c, last, id); } else { StepLeaves(c, last, id); }
    }
  }

  lemma OverGrows(init: seq<Step>, last: Step, id: Id, over: bool)
    ensures OverAfter(init + [last], id, over) == (OverAfter(init, id, over) || last == Next(id) || last == Leave(id))
  {
    assert Next(id) in init + [last] <==> Next(id) in init || last == Next(id);
    assert Leave(id) in init + [last] <==> Leave(id) in init || last == Leave(id);
  }

  /** The steps that fail a pending stream: the socket's close, an error frame, an error event. */
  predicate Fails(step: Step, id: Id) {
    Names(step, id) && FailedBy(EndingOf(Stream, step))
  }

  /** What a failing step itself tells the consumer.  A waiting pull is not rejected: it is told the
      end, or is given the error event. */
  function ToldAtFailure(step: Step, waiting: bool): seq<Delivery> {
    if !waiting then [] else if EventsOf(step) != [] then [Value(EventsOf(step)[0])] else [End]
  }

  /** Everything offered was delivered before the failure; an error event still needs a waiting pull. */
  predicate AllDeliveredAt(step: Step, q: Queue) {
    q.buffer == [] && (EventsOf(step) != [] ==> q.waiting)
  }

  lemma FailingStep(r: Request, step: Step)
    requires r.kind.Stream? && r.pending && !r.over && FailedBy(EndingOf(Stream, step))
    requires r.queue.waiting ==> r.queue.buffer == []
    requires !r.queue.finished
    ensures var r' := OnRequest(r, step);
      && r'.kind.Stream? && !r'.pending && r'.queue.failed && !r'.queue.waiting
      && r'.out == r.out + ToldAtFailure(step, r.queue.waiting)
      && r'.over == (ToldAtFailure(step, r.queue.waiting) == [End])
      && (r'.queue.buffer == [] <==> AllDeliveredAt(step, r.queue))
  {
  }

  /** For every pending stream of every run, and whatever follows: a close of the socket or an error
      frame adds the end to its answers exactly when a pull is waiting, and nothing otherwise; after
      that end every pull is told the end again, and else the first one is rejected and the others
      are told the end; and all the events it was offered are delivered exactly when none was
      buffered at that moment. */
  lemma FailureTells(steps: seq<Step>, id: Id, stop: Step, more: seq<Step>)
    requires id in Run(steps) && Run(steps)[id].kind.Stream? && Run(steps)[id].pending && Fails(stop, id)
    ensures id in Run(steps + [stop] + more) && History(steps + [stop] + more, id).Some?
    ensures var r, r' := Run(steps)[id], Run(steps + [stop] + more)[id];
      var told := ToldAtFailure(stop, r.queue.waiting);
      && r'.out == r.out + told + Answers(more, id, told == [End])
      && (Values(r'.out) == Offered(Stream, History(steps + [stop] + more, id).value.steps) <==>
            AllDeliveredAt(stop, r.queue))
  {
    EveryRequestTells(steps, id);
    RunAppend(steps, stop);
    var r := Run(steps)[id];
    FailingStep(r, stop);
    FailedStaysFailed(steps + [stop], id, more);
    EveryRequestTells(steps + [stop] + more, id);
    ValuesOfAnswers(Run(steps + [stop])[id].out, more, id, Run(steps + [stop])[id].over);
  }

  lemma RunOpen(id: Id)
    ensures Run([Open(id, Stream)]) == map[id := Opened(Stream)] && IsRun([Open(id, Stream)])
  {
    var opening := [Open(id, Stream)];
    assert [] + [Open(id, Stream)] == opening;
    RunAppend([], Open(id, Stream));
    assert opening[..|opening| - 1] == [] && IsRun([]) && IsPossible(Run([]), Open(id, Stream));
  }

  /** A consumer that waits when the socket closes is told the end, as after a completed run. */
  lemma ClosedWhileWaiting(id: Id)
    ensures var c := Run([Open(id, Stream)] + [Close] + []); id in c && c[id].out == [End]
  {
    RunOpen(id);
    FailureTells([Open(id, Stream)], id, Close, []);
  }

  /** One that is busy with the first of two events when the socket closes never gets the second: its
      next pull is rejected, and the one after that is told the end. */
  lemma ClosedWhileBusy(id: Id, first: Event, second: Event)
    requires first.kind.Progress? && second.kind.Progress?
    ensures var c := Run([Open(id, Stream), Receive(EventFrame(id, first)), Receive(EventFrame(id, second))]
                         + [Close] + [Next(id), Next(id)]);
      id in c && c[id].out == [Value(first), Rejection, End] && c[id].handled == [first, second]
  {
    var events := [Open(id, Stream), Receive(EventFrame(id, first)), Receive(EventFrame(id, second))];
    TwoEvents(id, first, second);
    FailureTells(events, id, Close, [Next(id), Next(id)]);
    RejectedAtMostOnce([Next(id), Next(id)], id, false);
    TwoPulls(id);
    EveryRequestTells(events, id);
    RunAppend(events, Close);
    FailedStaysFailed(events + [Close], id, [Next(id), Next(id)]);
  }

  lemma TwoPulls(id: Id)
    ensures Answers([Next(id), Next(id)], id, false) == [Rejection, End]
  {
    var one, pulls := [Next(id)], [Next(id), Next(id)];
    assert one[..0] == [] && pulls[..1] == one;
    assert Answers(one, id, false) == Answers([], id, false) + [Rejection];
    assert Next(id) in one && Answers(pulls, id, false) == Answers(one, id, false) + [End];
  }

  lemma ProgressStep(steps: seq<Step>, id: Id, r: Request, e: Event)
    requires e.kind.Progress? && r.kind.Stream? && r.pending && Run(steps) == map[id := r]
    ensures Run(steps + [Receive(EventFrame(id, e))]) == map[id := Handler(r, e)]
  {
    RunAppend(steps, Receive(EventFrame(id, e)));
    assert map[id := r][id := Handler(r, e)] == map[id := Handler(r, e)];
  }

  lemma TwoEvents(id: Id, first: Event, second: Event)
    requires first.kind.Progress? && second.kind.Progress?
    ensures Run([Open(id, Stream), Receive(EventFrame(id, first)), Receive(EventFrame(id, second))])
         == map[id := Request(Stream, true, [], [first, second], false, Queue([second], false, false, false), [Value(first)])]
  {
    RunOpen(id);
    ProgressStep([Open(id, Stream)], id, Opened(Stream), first);
    var one := Request(Stream, true, [], [first], false, EMPTY_QUEUE, [Value(first)]);
    assert [] + [first] == [first] && [] + [Value(first)] == [Value(first)];
    assert Handler(Opened(Stream), first) == one;
    ProgressStep([Open(id, Stream)] + [Receive(EventFrame(id, first))], id, one, second);
    assert [first] + [second] == [first, second] && [] + [second] == [second] && [Value(first)] + [] == [Value(first)];
    assert [Open(id, Stream)] + [Receive(EventFrame(id, first))] + [Receive(EventFrame(id, second))]
        == [Open(id, Stream), Receive(EventFrame(id, first)), Receive(EventFrame(id, second))];
  }

  // ----- Leaving -----

  /** The request after its consumer left, and `pulls` more calls of `next`. */
  function LeftAt(r: Request, pulls: nat): Request {
    r.(pending := false, over := true, out := r.out + Ends(pulls))
  }

  /** Once the consumer left, nothing settles the request or reaches its handler and queue, and every pull
      is told the end. */
  lemma {:induction false} LeavingTells(steps: seq<Step>, id: Id, more: seq<Step>)
    requires id in Run(steps) && Run(steps)[id].kind.Stream? && IsPossible(Run(steps), Leave(id))
    ensures id in Run(steps + [Leave(id)] + more)
    ensures Run(steps + [Leave(id)] + more)[id] == LeftAt(Run(steps)[id], Pulls(more, id))
    decreases |more|
  {
    var r := Run(steps)[id];
    RunAppend(steps, Leave(id));
    if more == [] {
      assert steps + [Leave(id)] + more == steps + [Leave(id)] && r.out + Ends(0) == r.out;
    } else {
      var init, last := more[..|more| - 1], more[|more| - 1];
      LeavingTells(steps, id, init);
      RunOn(steps + [Leave(id)], more);
      LeftStep(Run(steps + [Leave(id)] + init), r, id, Pulls(init, id), last);
    }
  }

  lemma LeftStep(c: Client, r: Request, id: Id, pulls: nat, last: Step)
    requires r.kind.Stream? && !r.queue.waiting && id in c && c[id] == LeftAt(r, pulls)
    ensures id in Step1(c, last)
    ensures Step1(c, last)[id] == LeftAt(r, pulls + (if last == Next(id) then 1 else 0))
  {
    if last == Next(id) {
      assert Ends(pulls + 1) == Ends(pulls) + [End];
      assert r.out + Ends(pulls) + [End] == r.out + (Ends(pulls) + [End]);
    } else if Names(last, id) {
      RemovedIsLeftAlone(c, last, id);
    } else {
      StepLeaves(c, last, id);
    }
  }

  // ----- Pulls that are never answered -----

  /** No pull waits on a finished generator. */
  predicate IsCalm(r: Request) {
    r.queue.waiting ==> r.kind.Stream? && !r.over
  }

  lemma StaysCalm(r: Request, step: Step)
    requires IsCalm(r) && (step.Next? || step.Leave? ==> !r.queue.waiting)
    ensures IsCalm(OnRequest(r, step))
  {
  }

  /** While a pull waits, its generator has not finished: the consumer cannot leave in the meantime. */
  lemma {:induction false} WaitingIsNotOver(steps: seq<Step>, id: Id)
    requires IsRun(steps) && id in Run(steps)
    ensures IsCalm(Run(steps)[id])
    decreases |steps|
  {
    var init, last := steps[..|steps| - 1], steps[|steps| - 1];
    if id in Run(init) {
      WaitingIsNotOver(init, id);
      if Names(last, id) { StaysCalm(Run(init)[id], last); } else { StepLeaves(Run(init), last, id); }
    }
  }

  /** A pull that waits when its stream ends goes unanswered exactly when a response ended it. */
  lemma WaitsPastEnding(steps: seq<Step>, id: Id, stop: Step)
    requires id in Run(steps) && Run(steps)[id].kind.Stream? && Run(steps)[id].pending
    requires Names(stop, id) && !EndingOf(Stream, stop).Running? && Run(steps)[id].queue.waiting
    requires IsPossible(Run(steps), stop)
    ensures id in Run(steps + [stop])
    ensures Run(steps + [stop])[id].queue.waiting <==> EndingOf(Stream, stop).ByResponse?
  {
    RunAppend(steps, stop);
  }

  /** A pull after the ending goes unanswered exactly when a response was the ending, nothing is
      buffered, and the consumer had not left. */
  lemma WaitsAfterEnding(steps: seq<Step>, id: Id)
    requires IsRun(steps + [Next(id)]) && id in Run(steps) && !Run(steps)[id].pending
    ensures History(steps, id).Some? && id in Run(steps + [Next(id)])
    ensures var own := History(steps, id).value.steps;
      Run(steps + [Next(id)])[id].queue.waiting <==>
        FirstEnding(Stream, own).ByResponse? && Run(steps)[id].queue.buffer == [] && !HasLeft(own)
  {
    EveryRequestTells(steps, id);
    RunOn(steps, [Next(id)]);
    assert [Next(id)][..0] == [] && steps + [] == steps;
  }

  /** In every run, a pull that waits once its stream has ended waits for good, and a response was the
      ending. */
  lemma {:induction false} UnansweredForGood(steps: seq<Step>, id: Id, more: seq<Step>)
    requires IsRun(steps + more) && IsRun(steps)
    requires id in Run(steps) && !Run(steps)[id].pending && Run(steps)[id].queue.waiting
    ensures History(steps, id).Some? && FirstEnding(Stream, History(steps, id).value.steps).ByResponse?
    ensures id in Run(steps + more) && Run(steps + more)[id] == Run(steps)[id]
    decreases |more|
  {
    EveryRequestTells(steps, id);
    WaitingIsNotOver(steps, id);
    if more == [] {
      assert steps + more == steps;
    } else {
      RunOn(steps, more);
      UnansweredForGood(steps, id, more[..|more| - 1]);
    }
  }

  /** A frame with a payload for a stream that waits: nothing that can follow answers the pull, not even
      the socket's close. */
  lemma ResponseForgetsStream(id: Id, payload: string, more: seq<Step>)
    requires IsRun([Open(id, Stream)] + [Receive(Response(id, payload))] + more)
    ensures var c := Run([Open(id, Stream)] + [Receive(Response(id, payload))] + more);
      id in c && c[id].queue.waiting && c[id].out == []
  {
    var steps := [Open(id, Stream)] + [Receive(Response(id, payload))];
    RunOpen(id);
    RunAppend([Open(id, Stream)], Receive(Response(id, payload)));
    assert steps[..1] == [Open(id, Stream)];
    UnansweredForGood(steps, id, more);
  }

  // ----- Draining a finished queue -----

  function Drain(q: Queue, pulls: nat): seq<Delivery>
    decreases pulls
  {
    if pulls == 0 then [] else Pull(q).deliveries + Drain(Pull(q).queue, pulls - 1)
  }

  /** A finished queue that did not fail gives its whole buffer and then the end, and goes on
      giving the end. */
  lemma {:induction false} DrainsToTheEnd(q: Queue, pulls: nat)
    requires q.finished && !q.failed
    ensures |Drain(q, pulls)| == pulls
    ensures forall i :: 0 <= i < pulls ==>
      Drain(q, pulls)[i] == if i < |q.buffer| then Value(q.buffer[i]) else End
    decreases pulls
  {
    if pulls > 0 {
      DrainsToTheEnd(Pull(q).queue, pulls - 1);
    }
  }
}

/** The same client as objects: what each method does is the step of the machine above. */
module ClientObjects {
  import opened ClientStream

  class AsyncIterableQueue {
    /** The request it was made for. */
    ghost const owner: Id
    var buffer: seq<Event>
    var waiting: bool
    var finished: bool
    var failed: bool
    /** What the consumer's pulls were answered with, by the queue or by the generator that reads it. */
    var answers: seq<Delivery>

    constructor (ghost id: Id)
      ensures State() == EMPTY_QUEUE && answers == [] && owner == id
    {
      owner := id;
      buffer, waiting, finished, failed := [], false, false, false;
      answers := [];
    }

    function State(): Queue
      reads this
    {
      Queue(buffer, waiting, finished, failed)
    }

    method PushEvent(e: Event)
      modifies this
      ensures State() == Push(old(State()), e).queue
      ensures answers == old(answers) + Push(old(State()), e).deliveries
    {
      if finished { return; }
      if waiting {
        waiting := false;
        answers := answers + [Value(e)];
      } else {
        buffer := buffer + [e];
      }
    }

    method Done()
      modifies this
      ensures State() == Finish(old(State())).queue
      ensures answers == old(answers) + Finish(old(State())).deliveries
    {
      finished := true;
      if waiting {
        waiting := false;
        answers := answers + [End];
      }
    }

    method Error()
      modifies this
      ensures State() == Fail(old(State())).queue
      ensures answers == old(answers) + Fail(old(State())).deliveries
    {
      failed := true;
      finished := true;
      if waiting {
        waiting := false;
        answers := answers + [End];
      }
    }

    method PullNext()
      requires !waiting
      modifies this
      ensures State() == Pull(old(State())).queue
      ensures answers == old(answers) + Pull(old(State())).deliveries
    {
      if failed {
        answers := answers + [Rejection];
      } else if |buffer| > 0 {
        answers := answers + [Value(buffer[0])];
        buffer := buffer[1..];
      } else if finished {
        answers := answers + [End];
      } else {
        waiting := true;
      }
    }
  }

  /** A frame's step, for a request that is not pending and for each kind of frame. */
  lemma ReceiveCases(c: Client, m: Message)
    ensures !(m.id in c && c[m.id].pending) ==> Step1(c, Receive(m)) == c
    ensures m.id in c && c[m.id].pending ==> Step1(c, Receive(m)) == c[m.id := Handle(c[m.id], m)]
    ensures m.id in c && m.Unknown? ==> Step1(c, Receive(m)) == c
  {
  }

  /** Running the handler first and removing the request afterwards comes to the same. */
  lemma EventInParts(r: Request, e: Event)
    ensures Handle(r, EventFrame("", e)) ==
      if e.kind.Progress? then Handler(r, e)
      else if e.kind.Failed? then Reject(Handler(r, e).(pending := false))
      else Resolve(Handler(r, e).(pending := false))
  {
  }

  lemma Overwrites(c: Client, id: Id, a: Request, b: Request)
    ensures c[id := a][id := b] == c[id := b]
  {
  }

  /** Registering a request, and for a stream pulling from it, opens it. */
  lemma RegisteredPulls(c: Client, id: Id, kind: Kind)
    requires id !in c
    ensures var registered := c[id := Registered(kind)];
      (if kind.Stream? then Step1(registered, Next(id)) else registered) == Step1(c, Open(id, kind))
  {
  }

  /** The socket's closing has reached every request but `left`. */
  ghost predicate ClosedBut(before: Client, now: Client, left: set<Id>) {
    && now.Keys == before.Keys
    && (forall id :: id in left ==> id in before && before[id].pending)
    && forall id :: id in before ==> now[id] == if id in left then before[id] else OnRequest(before[id], Close)
  }

  lemma ClosesOneMore(before: Client, now: Client, left: set<Id>, id: Id)
    requires ClosedBut(before, now, left) && id in left
    ensures ClosedBut(before, now[id := Reject(now[id].(pending := false))], left - {id})
  {
  }

  lemma ClosedAll(before: Client, now: Client)
    requires ClosedBut(before, now, {})
    ensures now == Step1(before, Close)
  {
  }

  lemma NoneClosed(requests: Client, left: set<Id>)
    requires forall id :: id in left <==> id in requests && requests[id].pending
    ensures ClosedBut(requests, requests, left)
  {
  }

  /** A registered request: the functions `resolve`, `reject` and the handlers, as the calls made to
      them, and behind a stream's functions its queue and the generator that reads it. */
  class PendingRequest {
    ghost const owner: Id
    const queue: AsyncIterableQueue?
    var settles: seq<Settle>
    var handled: seq<Event>
    /** The consumer has left the generator. */
    var returned: bool

    constructor (ghost id: Id, kind: Kind)
      ensures owner == id && State(true) == Registered(kind) && (queue != null <==> kind.Stream?)
      ensures queue != null ==> fresh(queue) && queue.owner == id
    {
      owner, settles, handled, returned := id, [], [], false;
      if kind.Stream? {
        queue := new AsyncIterableQueue(id);
      } else {
        queue := null;
      }
    }

    /** The generator has finished: it was left, or its queue told it the end or a rejection. */
    predicate IsOver()
      reads this, queue
    {
      queue != null && (returned || Finishes(queue.answers))
    }

    /** The request as the machine sees it, given whether it is pending. */
    ghost function State(pending: bool): Request
      reads this, queue
    {
      if queue == null then Request(Callback, pending, settles, handled, false, EMPTY_QUEUE, [])
      else Request(Stream, pending, settles, handled, IsOver(), queue.State(), queue.answers)
    }

    /** `next()` on the generator. */
    method CallNext(ghost pending: bool)
      requires queue != null && !queue.waiting
      modifies queue
      ensures State(pending) == PullThrough(old(State(pending)))
    {
      if IsOver() {
        queue.answers := queue.answers + [End];
      } else {
        ghost var answers := queue.answers;
        FinishesAppend(answers, Pull(queue.State()).deliveries);
        queue.PullNext();
      }
    }

    /** `return()` on the generator. */
    method CallReturn(ghost pending: bool)
      requires queue != null && !queue.waiting
      modifies this
      ensures State(pending) == old(State(pending)).(over := true)
    {
      returned := true;
    }

    /** A stream's `resolve` does nothing to its queue. */
    method CallResolve(ghost pending: bool)
      modifies this
      ensures State(pending) == Resolve(old(State(pending)))
    {
      settles := settles + [Resolved];
    }

    method CallReject(ghost pending: bool)
      modifies this, queue
      ensures State(pending) == Reject(old(State(pending)))
    {
      settles := settles + [Rejected];
      if queue != null {
        FinishesAppend(queue.answers, Fail(queue.State()).deliveries);
        queue.Error();
      }
    }

    method CallHandler(e: Event, ghost pending: bool)
      modifies this, queue
      ensures State(pending) == Handler(old(State(pending)), e)
    {
      handled := handled + [e];
      if queue != null {
        FinishesAppend(queue.answers, Push(queue.State(), e).deliveries);
        queue.PushEvent(e);
        FinishesAppend(queue.answers, Finish(queue.State()).deliveries);
        if IsTerminal(e) { queue.Done(); }
      }
    }

    method FinishQueue(ghost pending: bool)
      modifies queue
      ensures State(pending) == WithQueue(old(State(pending)), Finish(old(State(pending)).queue))
    {
      if queue != null {
        FinishesAppend(queue.answers, Finish(queue.State()).deliveries);
        queue.Done();
      }
    }
  }

  class SwampClient {
    var pending: map<Id, PendingRequest>
    /** Every request ever opened, and all their objects. */
    ghost var known: map<Id, PendingRequest>
    ghost var repr: set<object>

    /** The pending ones are known, and no two requests share an object. */
    ghost predicate Valid()
      reads this
    {
      && this !in repr
      && (forall id :: id in pending ==> id in known && pending[id] == known[id])
      && (forall id :: id in known ==> Owned(id, known[id]))
    }

    ghost predicate Owned(id: Id, r: PendingRequest)
      reads this
    {
      r in repr && r.owner == id && (r.queue != null ==> r.queue in repr && r.queue.owner == id)
    }

    /** The client as the machine sees it. */
    ghost function Requests(): Client
      requires Valid()
      reads this, repr
    {
      map id | id in known :: known[id].State(id in pending)
    }

    constructor ()
      ensures Valid() && Requests() == map[]
    {
      pending, known, repr := map[], map[], {};
    }

    method OpenRequest(id: Id, kind: Kind)
      requires Valid() && id !in known
      modifies this
      ensures Valid() && Requests() == Step1(old(Requests()), Open(id, kind))
      ensures fresh(repr - old(repr))
    {
      ghost var before := Requests();
      var request := new PendingRequest(id, kind);
      Register(id, request, if request.queue == null then {request} else {request, request.queue});
      if kind.Stream? { PullFrom(id, request); }
      RegisteredPulls(before, id, kind);
    }

    /** `pending.set`. */
    method Register(id: Id, request: PendingRequest, ghost parts: set<object>)
      requires Valid() && id !in known && this !in parts && request in parts && request.owner == id
      requires request.queue != null ==> request.queue in parts && request.queue.owner == id
      modifies this
      ensures Valid() && repr == old(repr) + parts
      ensures known == old(known)[id := request] && Requests() == old(Requests())[id := request.State(true)]
    {
      pending := pending[id := request];
      known, repr := known[id := request], repr + parts;
    }

    /** Removes a pending request and calls its `reject`. */
    method RejectPending(id: Id)
      requires Valid() && id in pending
      modifies this, repr
      ensures Valid() && repr == old(repr) && pending == old(pending) - {id}
      ensures Requests() == old(Requests())[id := Reject(old(Requests())[id].(pending := false))]
    {
      var request := pending[id];
      pending := pending - {id};
      request.CallReject(false);
    }

    /** Runs a pending request's handler on an event. */
    method Dispatch(id: Id, e: Event)
      requires Valid() && id in pending
      modifies repr
      ensures Valid() && pending == old(pending)
      ensures Requests() == old(Requests())[id := Handler(old(Requests())[id], e)]
    {
      pending[id].CallHandler(e, true);
    }

    /** Removes a pending request and calls its `resolve`. */
    method ResolvePending(id: Id)
      requires Valid() && id in pending
      modifies this, repr
      ensures Valid() && repr == old(repr) && pending == old(pending) - {id}
      ensures Requests() == old(Requests())[id := Resolve(old(Requests())[id].(pending := false))]
    {
      var request := pending[id];
      pending := pending - {id};
      request.CallResolve(false);
    }

    method FinishPending(id: Id)
      requires Valid() && id in pending
      modifies this, repr
      ensures Valid() && repr == old(repr) && pending == old(pending) - {id}
      ensures Requests() == old(Requests())[id := Handle(old(Requests())[id], DoneFrame(id))]
    {
      var request := pending[id];
      pending := pending - {id};
      request.FinishQueue(false);
    }

    method HandleEvent(id: Id, e: Event)
      requires Valid() && id in pending
      modifies this, repr
      ensures Valid() && repr == old(repr)
      ensures Requests() == old(Requests())[id := Handle(old(Requests())[id], EventFrame(id, e))]
    {
      ghost var before := Requests();
      EventInParts(before[id], e);
      Dispatch(id, e);
      if e.kind.Completed? || e.kind.Cancelled? {
        ResolvePending(id);
      } else if e.kind.Failed? {
        RejectPending(id);
      }
      Overwrites(before, id, Handler(before[id], e), Requests()[id]);
    }

    method HandleMessage(m: Message)
      requires Valid()
      modifies this, repr
      ensures Valid() && repr == old(repr) && Requests() == Step1(old(Requests()), Receive(m))
    {
      ReceiveCases(Requests(), m);
      if m.id in pending {
        match m {
          case ErrorFrame(id) => RejectPending(id);
          case DoneFrame(id) => FinishPending(id);
          case EventFrame(id, e) => HandleEvent(id, e);
          case Response(id, _) => ResolvePending(id);
          case Unknown(id) =>
        }
      }
    }

    /** `onclose`: every pending request is rejected and removed, in whatever order. */
    method OnClose()
      requires Valid()
      modifies this, repr
      ensures Valid() && repr == old(repr) && Requests() == Step1(old(Requests()), Close) && pending == map[]
    {
      ghost var before := Requests();
      NothingClosed(this);
      while |pending| > 0
        invariant Valid() && repr == old(repr)
        invariant ClosedBut(before, Requests(), pending.Keys)
        decreases |pending|
      {
        var id :| id in pending;
        CloseOne(before, id);
      }
      ClosedAll(before, Requests());
    }

    method CloseOne(ghost before: Client, id: Id)
      requires Valid() && id in pending && ClosedBut(before, Requests(), pending.Keys)
      modifies this, repr
      ensures Valid() && repr == old(repr) && pending == old(pending) - {id}
      ensures |pending| < |old(pending)| && ClosedBut(before, Requests(), pending.Keys)
    {
      assert pending.Keys == (pending.Keys - {id}) + {id};
      ClosesOneMore(before, Requests(), pending.Keys, id);
      RejectPending(id);
    }

    /** The consumer of a stream pulls. */
    method PullFrom(id: Id, request: PendingRequest)
      requires Valid() && id in known && known[id] == request && request.queue != null && !request.queue.waiting
      modifies request.queue
      ensures Valid() && Requests() == Step1(old(Requests()), Next(id))
    {
      request.CallNext(id in pending);
    }

    /** The consumer of a stream leaves, which runs the generator's `finally`. */
    method LeaveStream(id: Id, request: PendingRequest)
      requires Valid() && id in known && known[id] == request && request.queue != null && !request.queue.waiting
      modifies this, request
      ensures Valid() && repr == old(repr) && Requests() == Step1(old(Requests()), Leave(id))
    {
      request.CallReturn(false);
      pending := pending - {id};
    }
  }

  lemma NothingClosed(c: SwampClient)
    requires c.Valid()
    ensures ClosedBut(c.Requests(), c.Requests(), c.pending.Keys)
  {
    NoneClosed(c.Requests(), c.pending.Keys);
  }
}
