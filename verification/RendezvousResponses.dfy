/** Responses for any number of requests and invocations per id: no handler gets another id's. */
module RendezvousResponses {
  import opened Outcomes
  import opened HttpV2
  import opened Rendezvous
  import opened RendezvousPairs

  ghost predicate PostedBy(s: State, id: Id, v: PyObj) {
    exists t :: t in s.inv && s.inv[t].id == id && Posted(s.inv[t].phase) && PostedValue(s.inv[t].phase.response) == v
  }

  /** What a handler ended with was posted for its id; or it found the slot empty, after a post for its id. */
  ghost predicate OwnEnd(s: State, h: Tid)
    requires h in s.http
  {
    || s.http[h].phase.AwaitingResponse?
    || (s.http[h].phase.NoResponseFound? && HasPosted(s, s.http[h].id))
    || exists v :: PostedBy(s, s.http[h].id, v) && s.http[h].phase == Deliver(Returned(v))
  }

  ghost predicate ResponsesInv(s: State) {
    && (forall id :: id in s.refs && !s.refs[id].response.NoneObj? ==> PostedBy(s, id, s.refs[id].response))
    && (forall h :: h in s.http ==> OwnEnd(s, h))
  }

  /** What was posted stays posted. */
  lemma PostedByStays(s: State, s': State, id: Id, v: PyObj)
    requires forall t :: t in s.inv && Posted(s.inv[t].phase) ==> t in s'.inv && s'.inv[t] == s.inv[t]
    requires PostedBy(s, id, v)
    ensures PostedBy(s', id, v)
  {
    var t :| t in s.inv && s.inv[t].id == id && Posted(s.inv[t].phase) && PostedValue(s.inv[t].phase.response) == v;
    assert t in s'.inv;
  }

  /** A step that neither takes a response nor posts one. */
  lemma ResponsesQuiet(s: State, s': State)
    requires ResponsesInv(s)
    requires forall t :: t in s.inv && Posted(s.inv[t].phase) ==> t in s'.inv && s'.inv[t] == s.inv[t]
    requires forall id :: id in s'.refs && !s'.refs[id].response.NoneObj? ==>
               (id in s.refs && s'.refs[id].response == s.refs[id].response) || PostedBy(s', id, s'.refs[id].response)
    requires forall h :: h in s'.http && !s'.http[h].phase.AwaitingResponse? ==>
               (h in s.http && s'.http[h] == s.http[h]) || OwnEnd(s', h)
    ensures ResponsesInv(s')
  {
    forall id | id in s'.refs && !s'.refs[id].response.NoneObj? ensures PostedBy(s', id, s'.refs[id].response) {
      if !PostedBy(s', id, s'.refs[id].response) { PostedByStays(s, s', id, s.refs[id].response); }
    }
    forall h | h in s'.http ensures OwnEnd(s', h) {
      if h in s.http && s'.http[h] == s.http[h] { OwnEndStays(s, s', h); }
    }
  }

  lemma OwnEndStays(s: State, s': State, h: Tid)
    requires forall t :: t in s.inv && Posted(s.inv[t].phase) ==> t in s'.inv && s'.inv[t] == s.inv[t]
    requires h in s.http && h in s'.http && s'.http[h] == s.http[h] && OwnEnd(s, h)
    ensures OwnEnd(s', h)
  {
    if s.http[h].phase.NoResponseFound? {
      var t :| t in s.inv && s.inv[t].id == s.http[h].id && Posted(s.inv[t].phase);
      assert s'.inv[t] == s.inv[t];
    } else if !s.http[h].phase.AwaitingResponse? {
      var v :| PostedBy(s, s.http[h].id, v) && s.http[h].phase == Deliver(Returned(v));
      PostedByStays(s, s', s.http[h].id, v);
    }
  }

  lemma AnsweringResponses(s: State, t: Tid, id: Id, response: InvocationResponse, stage: Stage)
    requires ResponsesInv(s) && id in s.refs && !stage.Rejected? && (t in s.inv ==> !s.inv[t].phase.Answered?)
    ensures ResponsesInv(Rendezvous.Answering(s, t, id, response, stage))
  {
    var s' := Rendezvous.Answering(s, t, id, response, stage);
    assert Posted(s'.inv[t].phase);
    assert PostedBy(s', id, PostedValue(response));
    ResponsesQuiet(s, s');
  }

  lemma TakeResponses(s: State, t: Tid)
    requires ResponsesInv(s) && EventsInv(s) && Enabled(s, HttpResumes(t))
    ensures ResponsesInv(Next(s, HttpResumes(t)))
  {
    var s' := Next(s, HttpResumes(t));
    var v := s.refs[s.http[t].id].response;
    if v.NoneObj? {
      assert HasPosted(s', s.http[t].id) <==> HasPosted(s, s.http[t].id);
    } else {
      PostedByStays(s, s', s.http[t].id, v);
    }
    assert OwnEnd(s', t);
    ResponsesQuiet(s, s');
  }

  lemma StepResponses(s: State, c: Change)
    requires ResponsesInv(s) && EventsInv(s) && Possible(s, c)
    ensures ResponsesInv(Apply(s, c))
  {
    match c {
      case Take(t) => TakeResponses(s, t);
      case Answering(t, id, response, stage) => AnsweringResponses(s, t, id, response, stage);
      case _ => ResponsesQuiet(s, Apply(s, c));
    }
  }

  lemma {:induction false} RunResponses(events: seq<Event>)
    ensures ResponsesInv(Run(events))
  {
    if events != [] {
      var s := Run(events[..|events| - 1]);
      var e := events[|events| - 1];
      RunResponses(events[..|events| - 1]);
      RunSafe(events[..|events| - 1]);
      if Enabled(s, e) {
        if e.InvResumes? && s.refs[s.inv[e.t].id].request.None? {
          MissedEffect(s, e.t);
          AnsweringResponses(s, e.t, s.inv[e.t].id, Failure(ValueError), NoRequest);
        } else {
          NextIsApply(s, e);
          StepResponses(s, ChangeOf(s, e));
        }
      }
    }
  }

  /** For any number of requests and invocations per id: a handler that sends back a value, or raises an
      exception, does so because an invocation of its own id posted it; and one that finds no response
      does so after an invocation of its own id posted. */
  lemma ResponsesAreOwn(events: seq<Event>, h: Tid)
    requires h in Run(events).http && !Run(events).http[h].phase.AwaitingResponse?
    ensures var s := Run(events);
            && HasPosted(s, s.http[h].id)
            && (s.http[h].phase.NoResponseFound?
                || exists v :: PostedBy(s, s.http[h].id, v) && s.http[h].phase == Deliver(Returned(v)))
  {
    RunResponses(events);
    var s := Run(events);
    if !s.http[h].phase.NoResponseFound? {
      var v :| PostedBy(s, s.http[h].id, v) && s.http[h].phase == Deliver(Returned(v));
    }
  }
}
