/** HTTP handler tasks and invocation tasks meeting through the coordinator on one event loop. A step
    is the code one task runs between two awaits; any interleaving of steps is a run. */
module Rendezvous {
  import opened Outcomes
  import opened HttpV2

  type Tid = nat

  /** catch_all after its header check: waiting, or how it ended. */
  datatype HttpPhase =
    | AwaitingResponse
    | Replied(v: PyObj)
    | RaisedResponse(exc: Exc)
    | NoResponseFound

  datatype HttpTask = HttpTask(id: Id, phase: HttpPhase)

  datatype InvocationResponse = Success(result: PyObj) | Failure(exc: Exc)

  /** How far an invocation got before it answered: before HTTP v2 was decided, before it asked for the
      request, when it asked and found none, or after calling the function with a request. */
  datatype Stage = Rejected | Early | NoRequest | Called(req: Request)

  datatype InvPhase =
    | AwaitingRequest
    | Running(req: Request)
    | Answered(response: InvocationResponse, stage: Stage)
    | Crashed(received: Option<Request>)

  datatype InvTask = InvTask(id: Id, phase: InvPhase)

  datatype Answer = Answer(task: Tid, id: Id, response: InvocationResponse)

  datatype State = State(refs: References, http: map<Tid, HttpTask>, inv: map<Tid, InvTask>, queue: seq<Answer>)

  datatype CallOutcome = CallReturned(v: PyObj) | CallRaised(exc: Exc)

  datatype Event =
    | HttpArrives(t: Tid, id: Id)
    | HttpResumes(t: Tid)
    | InvRejected(t: Tid, id: Id, exc: Exc)
    | InvFailsEarly(t: Tid, id: Id, exc: Exc)
    | InvAwaits(t: Tid, id: Id)
    | InvResumes(t: Tid)
    | InvFinishes(t: Tid, call: CallOutcome, hasReturn: bool, conversion: Option<Exc>)
    /** A waiting or running invocation ends with an exception outside Exception: it is cancelled, or its
        function lets a cancellation through. The except branch does not see it. */
    | InvEscapes(t: Tid)

  const INITIAL := State(map[], map[], map[], [])

  /** A resumed task needs its event set; a new task is new. */
  predicate Enabled(s: State, e: Event) {
    match e
    case HttpArrives(t, id) => t !in s.http
    case HttpResumes(t) => t in s.http && s.http[t].phase.AwaitingResponse? && s.http[t].id in s.refs
                           && s.refs[s.http[t].id].responseSet
    case InvRejected(t, id, exc) => t !in s.inv
    case InvFailsEarly(t, id, exc) => t !in s.inv
    case InvAwaits(t, id) => t !in s.inv
    case InvResumes(t) => t in s.inv && s.inv[t].phase.AwaitingRequest? && s.inv[t].id in s.refs
                          && s.refs[s.inv[t].id].requestSet
    case InvFinishes(t, call, hasReturn, conversion) => t in s.inv && s.inv[t].phase.Running?
    case InvEscapes(t) => t in s.inv && (s.inv[t].phase.AwaitingRequest? || s.inv[t].phase.Running?)
  }

  /** What catch_all does with the response it popped. */
  function Deliver(response: Outcome<PyObj>): HttpPhase {
    match response
    case Raised(_) => NoResponseFound
    case Returned(ExcObj(exc)) => RaisedResponse(exc)
    case Returned(v) => Replied(v)
  }

  /** The response posted last, and the answer put on the queue. A return value other than None needs a
      $return binding; an output that cannot be converted replaces the result already posted. */
  function FinishCall(call: CallOutcome, hasReturn: bool, conversion: Option<Exc>): InvocationResponse {
    match call
    case CallRaised(exc) => Failure(exc)
    case CallReturned(v) =>
      if !v.NoneObj? && !hasReturn then Failure(RuntimeError)
      else if conversion.Some? then Failure(conversion.value)
      else Success(v)
  }

  /** The posts of the final segment, in order: the result if the call got that far, then the exception
      if anything failed. */
  function Posts(call: CallOutcome, hasReturn: bool, conversion: Option<Exc>): seq<PyObj> {
    var result := if call.CallReturned? && (call.v.NoneObj? || hasReturn) then [call.v] else [];
    match FinishCall(call, hasReturn, conversion)
    case Success(_) => result
    case Failure(exc) => result + [ExcObj(exc)]
  }

  function PostAll(refs: References, id: Id, posts: seq<PyObj>): Outcome<References> {
    if posts == [] then Returned(refs)
    else
      var next :- SetResponse(refs, id, posts[0]);
      PostAll(next, id, posts[1..])
  }

  /** The except branch: post the exception and answer Failure; without a reference the post itself
      raises and no answer is produced. */
  function Fail(s: State, t: Tid, id: Id, exc: Exc, stage: Stage): State {
    match SetResponse(s.refs, id, ExcObj(exc))
    case Raised(_) => s.(inv := s.inv[t := InvTask(id, Crashed(None))])
    case Returned(refs) => Reply(s.(refs := refs), t, id, Failure(exc), stage)
  }

  function Reply(s: State, t: Tid, id: Id, response: InvocationResponse, stage: Stage): State {
    s.(inv := s.inv[t := InvTask(id, Answered(response, stage))], queue := s.queue + [Answer(t, id, response)])
  }

  /** The request an invocation received, if it did. */
  function Got(phase: InvPhase): Option<Request> {
    match phase
    case Running(r) => Some(r)
    case Answered(_, Called(r)) => Some(r)
    case Crashed(received) => received
    case _ => None
  }

  function Next(s: State, e: Event): State
    requires Enabled(s, e)
  {
    match e
    case HttpArrives(t, id) =>
      s.(refs := SetRequest(s.refs, id, t), http := s.http[t := HttpTask(id, AwaitingResponse)])
    case HttpResumes(t) =>
      var id := s.http[t].id;
      var (refs, response) := PopResponse(s.refs, id);
      s.(refs := refs, http := s.http[t := HttpTask(id, Deliver(response))])
    case InvRejected(t, id, exc) => Reply(s, t, id, Failure(exc), Rejected)
    case InvFailsEarly(t, id, exc) => Fail(s, t, id, exc, Early)
    case InvAwaits(t, id) =>
      s.(refs := EnsureReference(s.refs, id), inv := s.inv[t := InvTask(id, AwaitingRequest)])
    case InvResumes(t) =>
      var id := s.inv[t].id;
      var (refs, request) := PopRequest(s.refs, id);
      (match request
       case Raised(exc) => Fail(s, t, id, exc, NoRequest)
       case Returned(r) => s.(refs := refs, inv := s.inv[t := InvTask(id, Running(r))]))
    case InvFinishes(t, call, hasReturn, conversion) =>
      var id := s.inv[t].id;
      (match PostAll(s.refs, id, Posts(call, hasReturn, conversion))
       case Raised(_) => s.(inv := s.inv[t := InvTask(id, Crashed(Got(s.inv[t].phase)))])
       case Returned(refs) =>
         Reply(s.(refs := refs), t, id, FinishCall(call, hasReturn, conversion), Called(s.inv[t].phase.req)))
    case InvEscapes(t) => s.(inv := s.inv[t := InvTask(s.inv[t].id, Crashed(Got(s.inv[t].phase)))])
  }

  function Run(events: seq<Event>): State {
    if events == [] then INITIAL
    else
      var s := Run(events[..|events| - 1]);
      var e := events[|events| - 1];
      if Enabled(s, e) then Next(s, e) else s
  }

  // ----- What every run keeps -----

  /** The invocation posted its outcome to the coordinator. */
  predicate Posted(phase: InvPhase) { phase.Answered? && !phase.stage.Rejected? }

  function PostedValue(response: InvocationResponse): PyObj {
    match response
    case Success(v) => v
    case Failure(exc) => ExcObj(exc)
  }

  /** A filled slot has its event set, and holds a request of its own id. */
  ghost predicate SlotsInv(s: State) {
    forall id :: id in s.refs ==>
      && (s.refs[id].request.Some? ==> s.refs[id].requestSet)
      && (!s.refs[id].response.NoneObj? ==> s.refs[id].responseSet)
      && (s.refs[id].request.Some? ==> s.refs[id].request.value in s.http && s.http[s.refs[id].request.value].id == id)
  }

  ghost predicate HasArrived(s: State, id: Id) {
    exists h :: h in s.http && s.http[h].id == id
  }

  ghost predicate HasPosted(s: State, id: Id) {
    exists t :: t in s.inv && s.inv[t].id == id && Posted(s.inv[t].phase)
  }

  /** Tasks that use the coordinator have a reference. */
  ghost predicate RefsInv(s: State) {
    && (forall h :: h in s.http ==> s.http[h].id in s.refs)
    && (forall t :: t in s.inv
                      && (s.inv[t].phase.AwaitingRequest? || s.inv[t].phase.Running? || Posted(s.inv[t].phase)) ==>
          s.inv[t].id in s.refs)
  }

  /** Events record exactly what was posted. */
  ghost predicate EventsInv(s: State) {
    && (forall id :: id in s.refs ==> (s.refs[id].requestSet <==> HasArrived(s, id)))
    && (forall id :: id in s.refs ==> (s.refs[id].responseSet <==> HasPosted(s, id)))
  }

  /** A received request was posted for that id, is in no slot any more, and no one else has it. */
  ghost predicate DeliveryInv(s: State) {
    && (forall t :: t in s.inv && Got(s.inv[t].phase).Some? ==>
          var r := Got(s.inv[t].phase).value;
          r in s.http && s.http[r].id == s.inv[t].id && s.inv[t].id in s.refs && s.refs[s.inv[t].id].request != Some(r))
    && (forall t, u :: t in s.inv && u in s.inv && t != u && Got(s.inv[t].phase).Some? ==>
          Got(s.inv[t].phase) != Got(s.inv[u].phase))
  }

  /** The queue holds one answer for each invocation that answered, and nothing else. */
  ghost predicate QueueInv(s: State) {
    && (forall i :: 0 <= i < |s.queue| ==>
          var a := s.queue[i];
          a.task in s.inv && s.inv[a.task].id == a.id
          && s.inv[a.task].phase.Answered? && s.inv[a.task].phase.response == a.response)
    && (forall i, j :: 0 <= i < j < |s.queue| ==> s.queue[i].task != s.queue[j].task)
    && (forall t :: t in s.inv && s.inv[t].phase.Answered? ==> exists i :: 0 <= i < |s.queue| && s.queue[i].task == t)
  }

  ghost predicate Safe(s: State) {
    SlotsInv(s) && RefsInv(s) && EventsInv(s) && DeliveryInv(s) && QueueInv(s)
  }

  lemma {:induction false} PostAllEffect(refs: References, id: Id, posts: seq<PyObj>)
    requires id in refs && posts != []
    ensures PostAll(refs, id, posts) ==
            Returned(refs[id := refs[id].(response := posts[|posts| - 1], responseSet := true)])
  {
    var next := SetResponse(refs, id, posts[0]).value;
    if |posts| > 1 {
      PostAllEffect(next, id, posts[1..]);
      assert next[id := next[id].(response := posts[|posts| - 1], responseSet := true)]
          == refs[id := refs[id].(response := posts[|posts| - 1], responseSet := true)];
    }
  }

  /** However the final segment ends, the slot is left with the value that matches the answer. */
  lemma FinishPostsAnswer(call: CallOutcome, hasReturn: bool, conversion: Option<Exc>)
    ensures var posts := Posts(call, hasReturn, conversion);
            posts != [] && posts[|posts| - 1] == PostedValue(FinishCall(call, hasReturn, conversion))
  {
  }

  /** An invocation with a reference leaves its outcome in the response slot and answers once. */
  function Answering(s: State, t: Tid, id: Id, response: InvocationResponse, stage: Stage): State
    requires id in s.refs
  {
    Reply(s.(refs := s.refs[id := s.refs[id].(response := PostedValue(response), responseSet := true)]),
          t, id, response, stage)
  }

  lemma FinishEffect(s: State, e: Event)
    requires e.InvFinishes? && Enabled(s, e) && s.inv[e.t].id in s.refs
    ensures Next(s, e) == Answering(s, e.t, s.inv[e.t].id, FinishCall(e.call, e.hasReturn, e.conversion),
                                    Called(s.inv[e.t].phase.req))
  {
    FinishPostsAnswer(e.call, e.hasReturn, e.conversion);
    PostAllEffect(s.refs, s.inv[e.t].id, Posts(e.call, e.hasReturn, e.conversion));
  }

  /** Answering keeps the invariants, for a new task or one that goes on from where it was. */
  lemma AnsweringSafe(s: State, t: Tid, id: Id, response: InvocationResponse, stage: Stage)
    requires Safe(s) && id in s.refs && !stage.Rejected?
    requires t in s.inv ==> s.inv[t].id == id && !s.inv[t].phase.Answered?
    requires stage.Called? ==> t in s.inv && s.inv[t].phase == Running(stage.req)
    ensures Safe(Answering(s, t, id, response, stage))
  {
    var s' := Answering(s, t, id, response, stage);
    AnsweringRefs(s, s', t, id, response, stage);
    AnsweringEvents(s, s', t, id, response, stage);
    AnsweringDelivery(s, s', t, id, response, stage);
    AnsweringQueue(s, s', t, id, response, stage);
  }

  lemma AnsweringRefs(s: State, s': State, t: Tid, id: Id, response: InvocationResponse, stage: Stage)
    requires RefsInv(s) && SlotsInv(s) && id in s.refs && s' == Answering(s, t, id, response, stage)
    ensures RefsInv(s') && SlotsInv(s')
  {
  }

  lemma AnsweringEvents(s: State, s': State, t: Tid, id: Id, response: InvocationResponse, stage: Stage)
    requires EventsInv(s) && id in s.refs && s' == Answering(s, t, id, response, stage) && !stage.Rejected?
    requires t in s.inv ==> s.inv[t].id == id && !s.inv[t].phase.Answered?
    ensures EventsInv(s')
  {
    forall i | i in s'.refs
      ensures (s'.refs[i].requestSet <==> HasArrived(s', i)) && (s'.refs[i].responseSet <==> HasPosted(s', i))
    {
      assert HasArrived(s', i) <==> HasArrived(s, i);
      if i == id {
        assert Posted(s'.inv[t].phase);
      } else {
        HasPostedFrame(s, s', t, i);
      }
    }
  }

  /** Only the changed task can make a difference to what was posted for an id. */
  lemma HasPostedFrame(s: State, s': State, t: Tid, id: Id)
    requires s'.inv.Keys == s.inv.Keys + {t} && forall u :: u in s.inv && u != t ==> s'.inv[u] == s.inv[u]
    requires (t in s.inv && s.inv[t].id == id && Posted(s.inv[t].phase))
             <==> (s'.inv[t].id == id && Posted(s'.inv[t].phase))
    ensures HasPosted(s, id) <==> HasPosted(s', id)
  {
    if HasPosted(s, id) {
      var u :| u in s.inv && s.inv[u].id == id && Posted(s.inv[u].phase);
      assert u in s'.inv;
    }
    if HasPosted(s', id) {
      var u :| u in s'.inv && s'.inv[u].id == id && Posted(s'.inv[u].phase);
      assert u in s.inv;
    }
  }

  lemma AnsweringDelivery(s: State, s': State, t: Tid, id: Id, response: InvocationResponse, stage: Stage)
    requires DeliveryInv(s) && id in s.refs && s' == Answering(s, t, id, response, stage)
    requires stage.Called? ==> t in s.inv && s.inv[t] == InvTask(id, Running(stage.req))
    ensures DeliveryInv(s')
  {
  }

  lemma AnsweringQueue(s: State, s': State, t: Tid, id: Id, response: InvocationResponse, stage: Stage)
    requires QueueInv(s)
    requires t in s.inv ==> !s.inv[t].phase.Answered?
    requires s'.inv == s.inv[t := InvTask(id, Answered(response, stage))]
    requires s'.queue == s.queue + [Answer(t, id, response)]
    ensures QueueInv(s')
  {
    forall u | u in s'.inv && s'.inv[u].phase.Answered?
      ensures exists i :: 0 <= i < |s'.queue| && s'.queue[i].task == u
    {
      if u == t {
        assert s'.queue[|s.queue|].task == t;
      } else {
        var i :| 0 <= i < |s.queue| && s.queue[i].task == u;
        assert s'.queue[i].task == u;
      }
    }
  }

  /** A task that waits, runs, was rejected or crashed changes nothing the coordinator records as posted. */
  lemma QuietEvents(s: State, s': State, t: Tid)
    requires EventsInv(s) && s'.http == s.http && s'.inv.Keys == s.inv.Keys + {t}
    requires forall u :: u in s.inv && u != t ==> s'.inv[u] == s.inv[u]
    requires !Posted(s'.inv[t].phase) && (t in s.inv ==> !Posted(s.inv[t].phase))
    requires forall id :: id in s'.refs && id in s.refs ==>
               s'.refs[id].requestSet == s.refs[id].requestSet && s'.refs[id].responseSet == s.refs[id].responseSet
    requires forall id :: id in s'.refs && id !in s.refs ==> s'.refs[id] == EMPTY
    requires RefsInv(s)
    ensures EventsInv(s')
  {
    forall id | id in s'.refs
      ensures (s'.refs[id].requestSet <==> HasArrived(s', id)) && (s'.refs[id].responseSet <==> HasPosted(s', id))
    {
      assert HasArrived(s', id) <==> HasArrived(s, id);
      HasPostedFrame(s, s', t, id);
    }
  }

  lemma QuietQueue(s: State, s': State, t: Tid)
    requires QueueInv(s) && s'.queue == s.queue && s'.inv.Keys == s.inv.Keys + {t}
    requires forall u :: u in s.inv && u != t ==> s'.inv[u] == s.inv[u]
    requires !s'.inv[t].phase.Answered? && (t in s.inv ==> !s.inv[t].phase.Answered?)
    ensures QueueInv(s')
  {
  }

  /** A new task that neither waits, runs nor posted. */
  lemma StartDelivery(s: State, s': State, t: Tid)
    requires SlotsInv(s) && RefsInv(s) && DeliveryInv(s) && t !in s.inv
    requires t in s'.inv && s'.refs == s.refs && s'.http == s.http && s'.inv == s.inv[t := s'.inv[t]]
    requires !s'.inv[t].phase.AwaitingRequest? && !Posted(s'.inv[t].phase) && Got(s'.inv[t].phase).None?
    ensures SlotsInv(s') && RefsInv(s') && DeliveryInv(s')
  {
  }

  lemma StartEvents(s: State, s': State, t: Tid)
    requires EventsInv(s) && RefsInv(s) && t !in s.inv
    requires t in s'.inv && s'.refs == s.refs && s'.http == s.http && s'.inv == s.inv[t := s'.inv[t]]
    requires !Posted(s'.inv[t].phase)
    ensures EventsInv(s')
  {
    QuietEvents(s, s', t);
  }

  lemma CrashSafe(s: State, t: Tid, id: Id)
    requires Safe(s) && t !in s.inv
    ensures Safe(s.(inv := s.inv[t := InvTask(id, Crashed(None))]))
  {
    var s' := s.(inv := s.inv[t := InvTask(id, Crashed(None))]);
    StartDelivery(s, s', t);
    StartEvents(s, s', t);
    QuietQueue(s, s', t);
  }

  lemma RejectSafe(s: State, t: Tid, id: Id, exc: Exc)
    requires Safe(s) && t !in s.inv
    ensures Safe(Reply(s, t, id, Failure(exc), Rejected))
  {
    var s' := Reply(s, t, id, Failure(exc), Rejected);
    StartDelivery(s, s', t);
    StartEvents(s, s', t);
    AnsweringQueue(s, s', t, id, Failure(exc), Rejected);
  }

  lemma AwaitDelivery(s: State, t: Tid, id: Id)
    requires SlotsInv(s) && RefsInv(s) && DeliveryInv(s) && t !in s.inv
    ensures var s' := Next(s, InvAwaits(t, id)); SlotsInv(s') && RefsInv(s') && DeliveryInv(s')
  {
  }

  lemma ReceiveDelivery(s: State, t: Tid)
    requires SlotsInv(s) && RefsInv(s) && DeliveryInv(s)
    requires Enabled(s, InvResumes(t)) && s.refs[s.inv[t].id].request.Some?
    ensures var s' := Next(s, InvResumes(t)); SlotsInv(s') && RefsInv(s') && DeliveryInv(s')
  {
  }

  lemma DeliverDelivery(s: State, t: Tid)
    requires SlotsInv(s) && RefsInv(s) && DeliveryInv(s) && QueueInv(s) && Enabled(s, HttpResumes(t))
    ensures var s' := Next(s, HttpResumes(t)); SlotsInv(s') && RefsInv(s') && DeliveryInv(s') && QueueInv(s')
  {
  }

  lemma ArriveDelivery(s: State, t: Tid, id: Id)
    requires SlotsInv(s) && RefsInv(s) && DeliveryInv(s) && QueueInv(s) && t !in s.http
    ensures var s' := Next(s, HttpArrives(t, id)); SlotsInv(s') && RefsInv(s') && DeliveryInv(s') && QueueInv(s')
  {
  }

  lemma ArriveEvents(s: State, t: Tid, id: Id)
    requires EventsInv(s) && RefsInv(s) && t !in s.http
    ensures EventsInv(Next(s, HttpArrives(t, id)))
  {
    var s' := Next(s, HttpArrives(t, id));
    forall i | i in s'.refs
      ensures (s'.refs[i].requestSet <==> HasArrived(s', i)) && (s'.refs[i].responseSet <==> HasPosted(s', i))
    {
      assert HasPosted(s', i) <==> HasPosted(s, i);
      if i == id {
        assert s'.http[t].id == id;
      } else {
        HasArrivedFrame(s, s', t, i);
      }
    }
  }

  lemma DeliverEvents(s: State, t: Tid)
    requires EventsInv(s) && Enabled(s, HttpResumes(t))
    ensures EventsInv(Next(s, HttpResumes(t)))
  {
    var s' := Next(s, HttpResumes(t));
    forall i | i in s'.refs
      ensures (s'.refs[i].requestSet <==> HasArrived(s', i)) && (s'.refs[i].responseSet <==> HasPosted(s', i))
    {
      HasArrivedFrame(s, s', t, i);
      assert HasPosted(s', i) <==> HasPosted(s, i);
    }
  }

  /** Only the changed task can make a difference to what arrived for an id. */
  lemma HasArrivedFrame(s: State, s': State, t: Tid, id: Id)
    requires s'.http.Keys == s.http.Keys + {t} && forall u :: u in s.http && u != t ==> s'.http[u] == s.http[u]
    requires (t in s.http && s.http[t].id == id) <==> s'.http[t].id == id
    ensures HasArrived(s, id) <==> HasArrived(s', id)
  {
    if HasArrived(s, id) {
      var h :| h in s.http && s.http[h].id == id;
      assert h in s'.http;
    }
    if HasArrived(s', id) {
      var h :| h in s'.http && s'.http[h].id == id;
      assert h in s.http;
    }
  }

  lemma AwaitEvents(s: State, t: Tid, id: Id)
    requires EventsInv(s) && RefsInv(s) && t !in s.inv
    ensures EventsInv(Next(s, InvAwaits(t, id)))
  {
    QuietEvents(s, Next(s, InvAwaits(t, id)), t);
  }

  lemma AwaitSafe(s: State, t: Tid, id: Id)
    requires Safe(s) && t !in s.inv
    ensures Safe(Next(s, InvAwaits(t, id)))
  {
    AwaitDelivery(s, t, id);
    AwaitEvents(s, t, id);
    QuietQueue(s, Next(s, InvAwaits(t, id)), t);
  }

  lemma ReceiveEvents(s: State, t: Tid)
    requires EventsInv(s) && RefsInv(s) && Enabled(s, InvResumes(t)) && s.refs[s.inv[t].id].request.Some?
    ensures EventsInv(Next(s, InvResumes(t)))
  {
    QuietEvents(s, Next(s, InvResumes(t)), t);
  }

  lemma ReceiveSafe(s: State, t: Tid)
    requires Safe(s) && Enabled(s, InvResumes(t)) && s.refs[s.inv[t].id].request.Some?
    ensures Safe(Next(s, InvResumes(t)))
  {
    ReceiveDelivery(s, t);
    ReceiveEvents(s, t);
    QuietQueue(s, Next(s, InvResumes(t)), t);
  }

  lemma ArriveSafe(s: State, t: Tid, id: Id)
    requires Safe(s) && t !in s.http
    ensures Safe(Next(s, HttpArrives(t, id)))
  {
    ArriveEvents(s, t, id);
    ArriveDelivery(s, t, id);
  }

  lemma DeliverSafe(s: State, t: Tid)
    requires Safe(s) && Enabled(s, HttpResumes(t))
    ensures Safe(Next(s, HttpResumes(t)))
  {
    DeliverEvents(s, t);
    DeliverDelivery(s, t);
  }

  lemma EscapeDelivery(s: State, t: Tid)
    requires SlotsInv(s) && RefsInv(s) && DeliveryInv(s) && Enabled(s, InvEscapes(t))
    ensures var s' := Next(s, InvEscapes(t)); SlotsInv(s') && RefsInv(s') && DeliveryInv(s')
  {
  }

  lemma EscapeSafe(s: State, t: Tid)
    requires Safe(s) && Enabled(s, InvEscapes(t))
    ensures Safe(Next(s, InvEscapes(t)))
  {
    EscapeDelivery(s, t);
    QuietEvents(s, Next(s, InvEscapes(t)), t);
    QuietQueue(s, Next(s, InvEscapes(t)), t);
  }

  /** Every step keeps the invariants, whatever tasks and ids are involved. */
  lemma StepSafe(s: State, e: Event)
    requires Safe(s) && Enabled(s, e)
    ensures Safe(Next(s, e))
  {
    match e {
      case HttpArrives(t, id) => ArriveSafe(s, t, id);
      case HttpResumes(t) => DeliverSafe(s, t);
      case InvRejected(t, id, exc) => RejectSafe(s, t, id, exc);
      case InvFailsEarly(t, id, exc) =>
        if id in s.refs { AnsweringSafe(s, t, id, Failure(exc), Early); } else { CrashSafe(s, t, id); }
      case InvAwaits(t, id) => AwaitSafe(s, t, id);
      case InvResumes(t) =>
        if s.refs[s.inv[t].id].request.Some? { ReceiveSafe(s, t); }
        else { AnsweringSafe(s, t, s.inv[t].id, Failure(ValueError), NoRequest); }
      case InvFinishes(t, call, hasReturn, conversion) =>
        FinishEffect(s, e);
        AnsweringSafe(s, t, s.inv[t].id, FinishCall(call, hasReturn, conversion), Called(s.inv[t].phase.req));
      case InvEscapes(t) => EscapeSafe(s, t);
    }
  }

  lemma {:induction false} RunSafe(events: seq<Event>)
    ensures Safe(Run(events))
  {
    if events != [] {
      RunSafe(events[..|events| - 1]);
      var s := Run(events[..|events| - 1]);
      var e := events[|events| - 1];
      if Enabled(s, e) { StepSafe(s, e); }
    }
  }
}
