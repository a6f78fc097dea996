/** What each step puts on the response queue and posts for the HTTP side, in terms of how the step ended. */
module RendezvousAnswers {
  import opened Outcomes
  import opened HttpV2
  import opened Rendezvous

  /** The answer a step adds to the queue. */
  ghost predicate Adds(s: State, after: State, t: Tid, id: Id, response: InvocationResponse) {
    after.queue == s.queue + [Answer(t, id, response)]
  }

  /** The response ends the call as the call ended: a Failure with exactly the exception it raised, or
      RuntimeError for a result nobody asked for, or the exception of a failed conversion; otherwise a
      Success with exactly the value returned. */
  ghost predicate Reports(response: InvocationResponse, call: CallOutcome, hasReturn: bool, conversion: Option<Exc>) {
    && (forall exc :: response == Failure(exc) <==>
          || call == CallRaised(exc)
          || (call.CallReturned? && call.v != NoneObj && !hasReturn && exc == RuntimeError)
          || (call.CallReturned? && (call.v == NoneObj || hasReturn) && conversion == Some(exc)))
    && (forall v :: response == Success(v) <==>
          call == CallReturned(v) && (v == NoneObj || hasReturn) && conversion == None)
  }

  lemma FinishReports(call: CallOutcome, hasReturn: bool, conversion: Option<Exc>)
    ensures Reports(FinishCall(call, hasReturn, conversion), call, hasReturn, conversion)
  {
  }

  /** The end of a call in any run: the one answer on the queue reports it, and the response slot holds what
      that answer says. */
  lemma FinishMeaning(events: seq<Event>, t: Tid, call: CallOutcome, hasReturn: bool, conversion: Option<Exc>)
    returns (response: InvocationResponse)
    requires Enabled(Run(events), InvFinishes(t, call, hasReturn, conversion))
    ensures Reports(response, call, hasReturn, conversion)
    ensures var s := Run(events);
            var after := Next(s, InvFinishes(t, call, hasReturn, conversion));
            var id := s.inv[t].id;
            && Adds(s, after, t, id, response)
            && id in after.refs && after.refs[id].responseSet
            && after.refs[id].response == (match response case Failure(exc) => ExcObj(exc) case Success(v) => v)
  {
    RunSafe(events);
    response := FinishCall(call, hasReturn, conversion);
    FinishEffect(Run(events), InvFinishes(t, call, hasReturn, conversion));
    FinishReports(call, hasReturn, conversion);
  }

  /** Every other answer: an invocation rejected, failing early, or finding no request is answered with that
      very exception, and nothing else is answered. */
  lemma OtherAnswers(events: seq<Event>, e: Event)
    requires Enabled(Run(events), e) && !e.InvFinishes?
    ensures var s, after := Run(events), Next(Run(events), e);
            match e
            case InvRejected(t, id, exc) => Adds(s, after, t, id, Failure(exc)) && after.refs == s.refs
            case InvFailsEarly(t, id, exc) =>
              if id in s.refs
              then && Adds(s, after, t, id, Failure(exc))
                   && after.refs == s.refs[id := s.refs[id].(response := ExcObj(exc), responseSet := true)]
              else after.queue == s.queue && after.refs == s.refs
            case InvResumes(t) =>
              var id := s.inv[t].id;
              if s.refs[id].request.None?
              then && Adds(s, after, t, id, Failure(ValueError))
                   && after.refs == s.refs[id := s.refs[id].(response := ExcObj(ValueError), responseSet := true)]
              else after.queue == s.queue
            case _ => after.queue == s.queue
  {
    RunSafe(events);
  }
}
