/** When each invocation id has at most one HTTP request and one invocation, the two sides get exactly
    what the other posted, in every interleaving. */
module RendezvousPairs {
  import opened Outcomes
  import opened HttpV2
  import opened Rendezvous
  import opened RendezvousAnswers

  ghost predicate OneEach(s: State) {
    && (forall h, k :: h in s.http && k in s.http && s.http[h].id == s.http[k].id ==> h == k)
    && (forall t, u :: t in s.inv && u in s.inv && s.inv[t].id == s.inv[u].id ==> t == u)
  }

  ghost predicate HasGot(s: State, id: Id) {
    exists t :: t in s.inv && s.inv[t].id == id && Got(s.inv[t].phase).Some?
  }

  ghost predicate HasInvocation(s: State, id: Id) {
    exists t :: t in s.inv && s.inv[t].id == id
  }

  /** What the waiting handler makes of a posted value: a None result is taken for an empty slot, and an
      exception object is raised. */
  function Delivered(v: PyObj): HttpPhase {
    Deliver(if v.NoneObj? then Raised(ValueError) else Returned(v))
  }

  /** A posted request is in its slot until an invocation of its id has it. */
  ghost predicate RequestPairs(s: State) {
    forall h :: h in s.http && s.http[h].id in s.refs ==>
      s.refs[s.http[h].id].request == Some(h) || HasGot(s, s.http[h].id)
  }

  ghost predicate NoneMissed(s: State) {
    forall t :: t in s.inv && s.inv[t].phase.Answered? ==> !s.inv[t].phase.stage.NoRequest?
  }

  ghost predicate NoneTook(s: State, id: Id) {
    forall h :: h in s.http && s.http[h].id == id ==> s.http[h].phase.AwaitingResponse?
  }

  /** A posted outcome is in its slot until a handler of its id has it. */
  ghost predicate ResponseWaits(s: State) {
    forall t :: t in s.inv && Posted(s.inv[t].phase) && s.inv[t].id in s.refs && NoneTook(s, s.inv[t].id) ==>
      s.refs[s.inv[t].id].response == PostedValue(s.inv[t].phase.response)
  }

  ghost predicate TookWhatWasPosted(s: State, h: Tid)
    requires h in s.http
  {
    forall t :: t in s.inv && s.inv[t].id == s.http[h].id && Posted(s.inv[t].phase) ==>
      s.http[h].phase == Delivered(PostedValue(s.inv[t].phase.response))
  }

  ghost predicate ResponseDelivered(s: State) {
    forall h :: h in s.http && !s.http[h].phase.AwaitingResponse? ==>
      HasPosted(s, s.http[h].id) && TookWhatWasPosted(s, h)
  }

  /** References are made by HTTP requests and by invocations only. */
  ghost predicate RefsOrigin(s: State) {
    forall id :: id in s.refs ==> HasArrived(s, id) || HasInvocation(s, id)
  }

  ghost predicate Paired(s: State) {
    RequestPairs(s) && NoneMissed(s) && ResponseWaits(s) && ResponseDelivered(s)
  }

  // ----- Steps by what they change -----

  /** A request arrives, a handler takes its response, an invocation starts without posting anything,
      takes its request, posts and answers, or ends unseen. */
  datatype Change =
    | Arrive(t: Tid, id: Id)
    | Take(t: Tid)
    | Start(t: Tid, id: Id, phase: InvPhase)
    | Receive(t: Tid)
    | Escape(t: Tid)
    | Answering(t: Tid, id: Id, response: InvocationResponse, stage: Stage)

  predicate Possible(s: State, c: Change) {
    match c
    case Arrive(t, id) => t !in s.http
    case Take(t) => Enabled(s, HttpResumes(t))
    case Start(t, id, phase) => t !in s.inv && Got(phase).None? && !Posted(phase)
    case Receive(t) => Enabled(s, InvResumes(t)) && s.refs[s.inv[t].id].request.Some?
    case Escape(t) => Enabled(s, InvEscapes(t))
    case Answering(t, id, response, stage) =>
      && id in s.refs && !stage.Rejected? && !stage.NoRequest?
      && (t in s.inv ==> s.inv[t].id == id && !s.inv[t].phase.Answered?)
      && (t in s.inv <==> stage.Called?)
      && (stage.Called? ==> s.inv[t].phase == Running(stage.req))
  }

  function Apply(s: State, c: Change): State
    requires Possible(s, c)
  {
    match c
    case Arrive(t, id) => Next(s, HttpArrives(t, id))
    case Take(t) => Next(s, HttpResumes(t))
    case Start(t, id, phase) =>
      s.(refs := if phase.AwaitingRequest? then EnsureReference(s.refs, id) else s.refs,
         inv := s.inv[t := InvTask(id, phase)],
         queue := if phase.Answered? then s.queue + [Answer(t, id, phase.response)] else s.queue)
    case Receive(t) => Next(s, InvResumes(t))
    case Escape(t) => Next(s, InvEscapes(t))
    case Answering(t, id, response, stage) => Rendezvous.Answering(s, t, id, response, stage)
  }

  /** Every step is one of these changes, unless an invocation finds no request. */
  function ChangeOf(s: State, e: Event): Change
    requires Enabled(s, e)
  {
    match e
    case HttpArrives(t, id) => Arrive(t, id)
    case HttpResumes(t) => Take(t)
    case InvRejected(t, id, exc) => Start(t, id, Answered(Failure(exc), Rejected))
    case InvFailsEarly(t, id, exc) =>
      if id in s.refs then Answering(t, id, Failure(exc), Early) else Start(t, id, Crashed(None))
    case InvAwaits(t, id) => Start(t, id, AwaitingRequest)
    case InvResumes(t) => Receive(t)
    case InvEscapes(t) => Escape(t)
    case InvFinishes(t, call, hasReturn, conversion) =>
      Answering(t, s.inv[t].id, FinishCall(call, hasReturn, conversion), Called(s.inv[t].phase.req))
  }

  lemma NextIsApply(s: State, e: Event)
    requires Safe(s) && Enabled(s, e)
    requires e.InvResumes? ==> s.refs[s.inv[e.t].id].request.Some?
    ensures Possible(s, ChangeOf(s, e)) && Next(s, e) == Apply(s, ChangeOf(s, e))
  {
    if e.InvFinishes? { FinishEffect(s, e); }
  }

  /** Tasks are never lost and keep their ids; requests received and outcomes posted stay. */
  lemma ApplyFrame(s: State, c: Change)
    requires Possible(s, c)
    ensures var s' := Apply(s, c);
            && (forall h :: h in s.http ==> h in s'.http && s'.http[h].id == s.http[h].id)
            && (forall t :: t in s.inv ==> t in s'.inv && s'.inv[t].id == s.inv[t].id)
            && (forall t :: t in s.inv && Got(s.inv[t].phase).Some? ==> Got(s'.inv[t].phase).Some?)
            && (forall t :: t in s.inv && Posted(s.inv[t].phase) ==> s'.inv[t] == s.inv[t])
  {
  }

  lemma OneEachBefore(s: State, c: Change)
    requires Possible(s, c) && OneEach(Apply(s, c))
    ensures OneEach(s)
  {
    ApplyFrame(s, c);
  }

  lemma HasGotFrame(s: State, c: Change, id: Id)
    requires Possible(s, c)
    ensures HasGot(s, id) ==> HasGot(Apply(s, c), id)
  {
    ApplyFrame(s, c);
    if HasGot(s, id) {
      var t :| t in s.inv && s.inv[t].id == id && Got(s.inv[t].phase).Some?;
      assert t in Apply(s, c).inv;
    }
  }

  lemma HasPostedStays(s: State, c: Change, id: Id)
    requires Possible(s, c)
    ensures HasPosted(s, id) ==> HasPosted(Apply(s, c), id)
  {
    ApplyFrame(s, c);
    if HasPosted(s, id) {
      var t :| t in s.inv && s.inv[t].id == id && Posted(s.inv[t].phase);
      assert t in Apply(s, c).inv;
    }
  }

  lemma RequestPairsStep(s: State, c: Change)
    requires Possible(s, c) && RefsInv(s) && SlotsInv(s) && OneEach(Apply(s, c)) && RequestPairs(s)
    ensures RequestPairs(Apply(s, c))
  {
    var s' := Apply(s, c);
    forall h | h in s'.http && s'.http[h].id in s'.refs
      ensures s'.refs[s'.http[h].id].request == Some(h) || HasGot(s', s'.http[h].id)
    {
      var id := s'.http[h].id;
      HasGotFrame(s, c, id);
      if c.Receive? && s.inv[c.t].id == id {
        assert Got(s'.inv[c.t].phase).Some?;
      } else {
        RequestStays(s, c, h);
      }
    }
  }

  lemma RequestStays(s: State, c: Change, h: Tid)
    requires Possible(s, c) && RefsInv(s) && OneEach(Apply(s, c)) && h in Apply(s, c).http
    requires c.Receive? ==> s.inv[c.t].id != Apply(s, c).http[h].id
    ensures var s' := Apply(s, c);
            var id := s'.http[h].id;
            if c == Arrive(h, id) then s'.refs[id].request == Some(h)
            else h in s.http && s.http[h].id == id && id in s.refs && s'.refs[id].request == s.refs[id].request
  {
    var s' := Apply(s, c);
    if c.Arrive? && h != c.t {
      assert s'.http[c.t].id == c.id && s'.http[h].id != c.id;
    }
  }

  /** If no other invocation shares its id, an invocation still waiting means nobody has the request. */
  lemma NotGotYet(s: State, t: Tid)
    requires OneEach(s) && t in s.inv && Got(s.inv[t].phase).None?
    ensures !HasGot(s, s.inv[t].id)
  {
  }

  lemma RequestIsThere(s: State, t: Tid)
    requires Safe(s) && OneEach(s) && RequestPairs(s) && Enabled(s, InvResumes(t))
    ensures s.refs[s.inv[t].id].request.Some?
  {
    NotGotYet(s, t);
    assert HasArrived(s, s.inv[t].id);
  }

  lemma NoneMissedStep(s: State, c: Change)
    requires Possible(s, c) && NoneMissed(s)
    requires c.Start? ==> c.phase != Answered(Failure(ValueError), NoRequest)
    requires c.Start? && c.phase.Answered? ==> c.phase.stage.Rejected?
    ensures NoneMissed(Apply(s, c))
  {
  }

  lemma ResponseWaitsStep(s: State, c: Change)
    requires Possible(s, c) && RefsInv(s) && OneEach(Apply(s, c)) && ResponseWaits(s)
    ensures ResponseWaits(Apply(s, c))
  {
    var s' := Apply(s, c);
    forall t | t in s'.inv && Posted(s'.inv[t].phase) && s'.inv[t].id in s'.refs && NoneTook(s', s'.inv[t].id)
      ensures s'.refs[s'.inv[t].id].response == PostedValue(s'.inv[t].phase.response)
    {
      if !c.Answering? || c.t != t {
        ResponseStays(s, c, t);
      }
    }
  }

  lemma ResponseStays(s: State, c: Change, t: Tid)
    requires Possible(s, c) && RefsInv(s) && OneEach(Apply(s, c))
    requires t in Apply(s, c).inv && Posted(Apply(s, c).inv[t].phase) && (!c.Answering? || c.t != t)
    requires NoneTook(Apply(s, c), Apply(s, c).inv[t].id)
    ensures var s' := Apply(s, c);
            var id := s'.inv[t].id;
            && t in s.inv && s.inv[t] == s'.inv[t] && id in s.refs && NoneTook(s, id)
            && s'.refs[id].response == s.refs[id].response
  {
    var s' := Apply(s, c);
    var id := s'.inv[t].id;
    assert t in s.inv && s.inv[t] == s'.inv[t];
    ApplyFrame(s, c);
    if c.Answering? {
      assert s'.inv[c.t].id == c.id && c.id != id;
    } else if c.Take? {
      assert !s'.http[c.t].phase.AwaitingResponse? && s'.http[c.t].id != id;
    }
    forall h | h in s.http && s.http[h].id == id ensures s.http[h].phase.AwaitingResponse? {
      assert h in s'.http && s'.http[h].phase.AwaitingResponse?;
    }
  }

  lemma ResponseDeliveredStep(s: State, c: Change)
    requires Possible(s, c) && RefsInv(s) && EventsInv(s) && OneEach(Apply(s, c))
    requires ResponseWaits(s) && ResponseDelivered(s)
    ensures ResponseDelivered(Apply(s, c))
  {
    var s' := Apply(s, c);
    forall h | h in s'.http && !s'.http[h].phase.AwaitingResponse?
      ensures HasPosted(s', s'.http[h].id) && TookWhatWasPosted(s', h)
    {
      HasPostedStays(s, c, s'.http[h].id);
      if c == Take(h) {
        TakeDelivers(s, h);
      } else {
        TookStays(s, c, h);
      }
    }
  }

  lemma TakeDelivers(s: State, h: Tid)
    requires Possible(s, Take(h)) && EventsInv(s) && OneEach(Apply(s, Take(h))) && ResponseWaits(s)
    ensures HasPosted(s, s.http[h].id) && TookWhatWasPosted(Apply(s, Take(h)), h)
  {
    var s' := Apply(s, Take(h));
    OneEachBefore(s, Take(h));
    assert NoneTook(s, s.http[h].id);
    assert s'.http[h].phase == Delivered(s.refs[s.http[h].id].response);
  }

  /** A handler that has its response keeps it, and no second invocation of its id posts. */
  lemma TookStays(s: State, c: Change, h: Tid)
    requires Possible(s, c) && OneEach(Apply(s, c)) && ResponseDelivered(s)
    requires h in Apply(s, c).http && !Apply(s, c).http[h].phase.AwaitingResponse? && c != Take(h)
    ensures h in s.http && HasPosted(s, s.http[h].id) && TookWhatWasPosted(Apply(s, c), h)
  {
    var s' := Apply(s, c);
    ApplyFrame(s, c);
    assert h in s.http && s'.http[h] == s.http[h];
    var u :| u in s.inv && s.inv[u].id == s.http[h].id && Posted(s.inv[u].phase);
    assert s'.inv[u] == s.inv[u];
  }

  lemma RefsOriginStep(s: State, c: Change)
    requires Possible(s, c) && RefsOrigin(s)
    ensures RefsOrigin(Apply(s, c))
  {
    var s' := Apply(s, c);
    ApplyFrame(s, c);
    forall id | id in s'.refs ensures HasArrived(s', id) || HasInvocation(s', id) {
      if id in s.refs {
        OriginStays(s, s', id);
      } else if c.Arrive? {
        assert s'.http[c.t].id == id;
      } else {
        assert s'.inv[c.t].id == id;
      }
    }
  }

  lemma OriginStays(s: State, s': State, id: Id)
    requires forall h :: h in s.http ==> h in s'.http && s'.http[h].id == s.http[h].id
    requires forall t :: t in s.inv ==> t in s'.inv && s'.inv[t].id == s.inv[t].id
    requires HasArrived(s, id) || HasInvocation(s, id)
    ensures HasArrived(s', id) || HasInvocation(s', id)
  {
    if HasArrived(s, id) {
      var h :| h in s.http && s.http[h].id == id;
      assert h in s'.http;
    } else {
      var t :| t in s.inv && s.inv[t].id == id;
      assert t in s'.inv;
    }
  }

  lemma EventsStay(s: State, c: Change, id: Id)
    requires Possible(s, c) && id in s.refs
    ensures var after := Apply(s, c).refs;
            && id in after
            && (s.refs[id].requestSet ==> after[id].requestSet) && (s.refs[id].responseSet ==> after[id].responseSet)
  {
  }

  /** An invocation that finds no request posts the ValueError and answers with it. */
  lemma MissedEffect(s: State, t: Tid)
    requires Enabled(s, InvResumes(t)) && s.refs[s.inv[t].id].request.None?
    ensures Next(s, InvResumes(t)) == Rendezvous.Answering(s, t, s.inv[t].id, Failure(ValueError), NoRequest)
  {
  }

  lemma MissedKeepsOneEach(s: State, t: Tid)
    requires Safe(s) && Enabled(s, InvResumes(t)) && s.refs[s.inv[t].id].request.None?
    requires OneEach(Next(s, InvResumes(t)))
    ensures OneEach(s)
  {
    MissedEffect(s, t);
    var s' := Next(s, InvResumes(t));
    assert s'.http == s.http && s'.inv.Keys == s.inv.Keys;
    assert forall u :: u in s.inv ==> s'.inv[u].id == s.inv[u].id;
  }

  lemma {:induction false} RunPaired(events: seq<Event>)
    requires OneEach(Run(events))
    ensures Paired(Run(events))
  {
    if events != [] {
      var s := Run(events[..|events| - 1]);
      var e := events[|events| - 1];
      RunSafe(events[..|events| - 1]);
      if Enabled(s, e) {
        if e.InvResumes? && s.refs[s.inv[e.t].id].request.None? {
          MissedKeepsOneEach(s, e.t);
          RunPaired(events[..|events| - 1]);
          RequestIsThere(s, e.t);
        } else {
          var c := ChangeOf(s, e);
          NextIsApply(s, e);
          OneEachBefore(s, c);
          RunPaired(events[..|events| - 1]);
          RequestPairsStep(s, c);
          NoneMissedStep(s, c);
          ResponseWaitsStep(s, c);
          ResponseDeliveredStep(s, c);
        }
      } else {
        RunPaired(events[..|events| - 1]);
      }
    }
  }

  lemma {:induction false} RunRefsOrigin(events: seq<Event>)
    ensures RefsOrigin(Run(events))
  {
    if events != [] {
      var s := Run(events[..|events| - 1]);
      var e := events[|events| - 1];
      RunRefsOrigin(events[..|events| - 1]);
      RunSafe(events[..|events| - 1]);
      if Enabled(s, e) {
        if e.InvResumes? && s.refs[s.inv[e.t].id].request.None? {
          MissedEffect(s, e.t);
          forall id | id in Next(s, e).refs ensures HasArrived(Next(s, e), id) || HasInvocation(Next(s, e), id) {
            OriginStays(s, Next(s, e), id);
          }
        } else {
          NextIsApply(s, e);
          RefsOriginStep(s, ChangeOf(s, e));
        }
      }
    }
  }

  // ----- Main results -----

  /** No event of any id is ever cleared, whatever the step. */
  lemma EventsNeverCleared(events: seq<Event>, e: Event, id: Id)
    requires Enabled(Run(events), e) && id in Run(events).refs
    ensures var before, after := Run(events).refs, Run(events + [e]).refs;
            && id in after
            && (before[id].requestSet ==> after[id].requestSet) && (before[id].responseSet ==> after[id].responseSet)
  {
    RunSafe(events);
    var s := Run(events);
    if e.InvResumes? && s.refs[s.inv[e.t].id].request.None? {
      MissedEffect(s, e.t);
    } else {
      NextIsApply(s, e);
      EventsStay(s, ChangeOf(s, e), id);
    }
    assert (events + [e])[..|events|] == events;
  }

  /** For any number of requests and invocations per id: what an invocation received was posted by an
      HTTP request of its id, and no other invocation received it. */
  lemma NoRequestDeliveredTwice(events: seq<Event>, t: Tid, u: Tid)
    requires var s := Run(events); t in s.inv && u in s.inv && Got(s.inv[t].phase).Some?
    ensures var s := Run(events);
            var r := Got(s.inv[t].phase).value;
            r in s.http && s.http[r].id == s.inv[t].id && (t != u ==> Got(s.inv[u].phase) != Some(r))
  {
    RunSafe(events);
  }

  /** Both sides present, in either order and amid any other traffic: the invocation can go on, and it
      goes on with exactly the request posted for its id. */
  lemma RequestReachesInvocation(events: seq<Event>, t: Tid, h: Tid)
    requires var s := Run(events);
             OneEach(s) && t in s.inv && h in s.http && s.inv[t].id == s.http[h].id && s.inv[t].phase.AwaitingRequest?
    ensures var s := Run(events);
            Enabled(s, InvResumes(t)) && Next(s, InvResumes(t)).inv[t].phase == Running(h)
  {
    RunSafe(events);
    RunPaired(events);
    var s := Run(events);
    var id := s.inv[t].id;
    assert HasArrived(s, id);
    NotGotYet(s, t);
  }

  /** With one request for the id, a second invocation that asks after the first took it gets a
      ValueError at once instead of waiting. */
  lemma LateGetterFails(events: seq<Event>, t: Tid, u: Tid)
    requires var s := Run(events);
             && t in s.inv && u in s.inv && s.inv[t].id == s.inv[u].id
             && Got(s.inv[t].phase).Some? && s.inv[u].phase.AwaitingRequest?
             && forall h, k :: h in s.http && k in s.http && s.http[h].id == s.http[k].id == s.inv[t].id ==> h == k
    ensures var s := Run(events);
            && Enabled(s, InvResumes(u))
            && Next(s, InvResumes(u)).inv[u].phase == Answered(Failure(ValueError), NoRequest)
  {
    RunSafe(events);
    var s := Run(events);
    assert HasArrived(s, s.inv[u].id);
  }

  /** The handler's end and the invocation's answer agree: a value is sent back exactly when the answer
      is Success with that value; an exception is raised exactly when the answer is Failure with it, or
      when the function returned an exception object; and a Success with None leaves the handler with a
      ValueError of its own. */
  lemma OutcomesAgree(events: seq<Event>, h: Tid, t: Tid)
    requires var s := Run(events);
             OneEach(s) && h in s.http && t in s.inv && s.inv[t].id == s.http[h].id
             && !s.http[h].phase.AwaitingResponse?
    ensures var phase, invocation := Run(events).http[h].phase, Run(events).inv[t].phase;
            && Posted(invocation)
            && (forall v :: phase == Replied(v) <==> invocation.response == Success(v) && v.Plain?)
            && (forall exc :: phase == RaisedResponse(exc) <==>
                  invocation.response == Failure(exc) || invocation.response == Success(ExcObj(exc)))
            && (phase == NoResponseFound <==> invocation.response == Success(NoneObj))
  {
    RunPaired(events);
    var s := Run(events);
    var u :| u in s.inv && s.inv[u].id == s.http[h].id && Posted(s.inv[u].phase);
    assert u == t;
    DeliveredMeaning(s.inv[t].phase.response);
  }

  lemma DeliveredMeaning(response: InvocationResponse)
    ensures var phase := Delivered(PostedValue(response));
            && (forall v :: phase == Replied(v) <==> response == Success(v) && v.Plain?)
            && (forall exc :: phase == RaisedResponse(exc) <==>
                  response == Failure(exc) || response == Success(ExcObj(exc)))
            && (phase == NoResponseFound <==> response == Success(NoneObj))
  {
  }

  /** A waiting handler can go on exactly when its invocation posted; an invocation that was rejected
      before HTTP v2 was decided, or that crashed, leaves it waiting. */
  lemma WaiterWakesIffPosted(events: seq<Event>, h: Tid, t: Tid)
    requires var s := Run(events);
             OneEach(s) && h in s.http && t in s.inv && s.inv[t].id == s.http[h].id
             && s.http[h].phase.AwaitingResponse?
    ensures Enabled(Run(events), HttpResumes(h)) <==> Posted(Run(events).inv[t].phase)
  {
    RunSafe(events);
    var s := Run(events);
    if Posted(s.inv[t].phase) { assert HasPosted(s, s.http[h].id); }
  }

  /** The i-th answer, and no other, is the one of this invocation. */
  ghost predicate AnswersAt(s: State, t: Tid, i: int) {
    && t in s.inv && s.inv[t].phase.Answered? && 0 <= i < |s.queue|
    && s.queue[i] == Answer(t, s.inv[t].id, s.inv[t].phase.response)
    && forall j :: 0 <= j < |s.queue| && s.queue[j].task == t ==> j == i
  }

  /** An invocation that answered has exactly one InvocationResponse on the queue, under its own id; one
      that has not, has none. */
  lemma AnswersOnce(events: seq<Event>, t: Tid)
    requires t in Run(events).inv
    ensures var s := Run(events);
            && (s.inv[t].phase.Answered? ==> exists i :: AnswersAt(s, t, i))
            && (!s.inv[t].phase.Answered? ==> forall i :: 0 <= i < |s.queue| ==> s.queue[i].task != t)
  {
    RunSafe(events);
    var s := Run(events);
    if s.inv[t].phase.Answered? {
      var i :| 0 <= i < |s.queue| && s.queue[i].task == t;
      assert AnswersAt(s, t, i);
    }
  }

  /** An invocation that fails before it asks for its request answers if and only if the HTTP request is
      already there; otherwise posting the exception raises KeyError and nothing is answered. */
  lemma EarlyFailureAnswersIffArrived(events: seq<Event>, t: Tid, id: Id, exc: Exc)
    requires var s := Run(events);
             Enabled(s, InvFailsEarly(t, id, exc)) && OneEach(Next(s, InvFailsEarly(t, id, exc)))
    ensures var s := Run(events);
            var phase := Next(s, InvFailsEarly(t, id, exc)).inv[t].phase;
            && (phase == Answered(Failure(exc), Early) <==> HasArrived(s, id))
            && (phase == Crashed(None) <==> !HasArrived(s, id))
  {
    RunSafe(events);
    RunRefsOrigin(events);
    var s := Run(events);
    NoOtherInvocation(s, t, id, Next(s, InvFailsEarly(t, id, exc)));
  }

  lemma NoOtherInvocation(s: State, t: Tid, id: Id, after: State)
    requires t !in s.inv && t in after.inv && after.inv[t].id == id && OneEach(after)
    requires forall u :: u in s.inv ==> u in after.inv && after.inv[u].id == s.inv[u].id
    ensures !HasInvocation(s, id)
  {
  }

  /** An invocation that has its request goes on until its call ends. It answers, reporting the end of
      its call and conversions, if and only if the call returns or raises an Exception; if the call lets
      anything else out, nothing is posted and nothing is answered. */
  lemma CalledAnswersIff(events: seq<Event>, t: Tid, e: Event)
    requires var s := Run(events); Enabled(s, e) && t in s.inv && s.inv[t].phase.Running?
    ensures var s, after := Run(events), Next(Run(events), e);
            && t in after.inv
            && (after.inv[t].phase.Answered? <==> e.InvFinishes? && e.t == t)
            && (after.inv[t].phase.Crashed? <==> e == InvEscapes(t))
            && (after.inv[t].phase.Answered? ==>
                  && after.inv[t].phase.stage == Called(s.inv[t].phase.req)
                  && Reports(after.inv[t].phase.response, e.call, e.hasReturn, e.conversion))
            && (after.inv[t].phase.Crashed? ==>
                  after.refs == s.refs && after.queue == s.queue && after.http == s.http)
            && (!after.inv[t].phase.Answered? && !after.inv[t].phase.Crashed? ==> after.inv[t] == s.inv[t])
  {
    RunSafe(events);
    if e.InvFinishes? {
      FinishEffect(Run(events), e);
      FinishReports(e.call, e.hasReturn, e.conversion);
    } else {
      RunningGoesOn(Run(events), t, e);
    }
  }

  lemma RunningGoesOn(s: State, t: Tid, e: Event)
    requires Enabled(s, e) && t in s.inv && s.inv[t].phase.Running? && !e.InvFinishes?
    ensures var after := Next(s, e);
            && t in after.inv
            && (if e == InvEscapes(t)
                then && after.inv[t].phase.Crashed? && after.refs == s.refs && after.queue == s.queue
                     && after.http == s.http
                else after.inv[t] == s.inv[t])
  {
  }

  lemma StepKeepsCrash(s: State, e: Event, t: Tid)
    requires Enabled(s, e) && t in s.inv && s.inv[t].phase.Crashed?
    ensures t in Next(s, e).inv && Next(s, e).inv[t] == s.inv[t]
  {
  }

  lemma RunSnoc(events: seq<Event>, e: Event)
    ensures Run(events + [e]) == if Enabled(Run(events), e) then Next(Run(events), e) else Run(events)
  {
    assert (events + [e])[..|events|] == events;
  }

  lemma {:induction false} CrashedIsFinal(events: seq<Event>, later: seq<Event>, t: Tid)
    requires t in Run(events).inv && Run(events).inv[t].phase.Crashed?
    ensures t in Run(events + later).inv && Run(events + later).inv[t] == Run(events).inv[t]
  {
    if later == [] {
      assert events + later == events;
    } else {
      var front, e := later[..|later| - 1], later[|later| - 1];
      CrashedIsFinal(events, front, t);
      assert events + later == (events + front) + [e];
      RunSnoc(events + front, e);
      if Enabled(Run(events + front), e) { StepKeepsCrash(Run(events + front), e, t); }
    }
  }

  /** A crash is never made up for: in no continuation does the invocation have an answer, and the HTTP
      task that waits for it, if there is one, is never woken. */
  lemma CrashStrandsWaiter(events: seq<Event>, later: seq<Event>, t: Tid, h: Tid)
    requires t in Run(events).inv && Run(events).inv[t].phase.Crashed? && OneEach(Run(events + later))
    ensures var s := Run(events + later);
            && t in s.inv
            && (forall i :: 0 <= i < |s.queue| ==> s.queue[i].task != t)
            && (h in s.http && s.http[h].id == s.inv[t].id ==>
                  s.http[h].phase.AwaitingResponse? && !Enabled(s, HttpResumes(h)))
  {
    var s := Run(events + later);
    CrashedIsFinal(events, later, t);
    AnswersOnce(events + later, t);
    if h in s.http && s.http[h].id == s.inv[t].id {
      if s.http[h].phase.AwaitingResponse? {
        WaiterWakesIffPosted(events + later, h, t);
      } else {
        OutcomesAgree(events + later, h, t);
      }
    }
  }
}
