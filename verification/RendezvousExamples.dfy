/** Concrete runs in which the two sides do not both get an outcome. */
module RendezvousExamples {
  import opened Outcomes
  import opened HttpV2
  import opened Rendezvous
  import opened RendezvousPairs

  /** The invocation fails before its HTTP request arrives: it is not answered, and the HTTP request that
      comes after it waits for an event nobody sets. */
  lemma CrashLeavesNoAnswer()
    ensures var s := Run([InvFailsEarly(0, "i", RuntimeError), HttpArrives(1, "i")]);
            && s.inv == map[0 := InvTask("i", Crashed(None))] && s.queue == []
            && s.http == map[1 := HttpTask("i", AwaitingResponse)] && !Enabled(s, HttpResumes(1))
  {
  }

  /** The request is there and the function has it; its call ends in a cancellation. */
  lemma EscapeLeavesNoAnswer()
    ensures var s := Run([HttpArrives(0, "i"), InvAwaits(1, "i"), InvResumes(1), InvEscapes(1)]);
            && s.inv == map[1 := InvTask("i", Crashed(Some(0)))] && s.queue == []
            && s.http == map[0 := HttpTask("i", AwaitingResponse)] && !Enabled(s, HttpResumes(0))
  {
    var s := CalledRun();
    assert [HttpArrives(0, "i"), InvAwaits(1, "i"), InvResumes(1), InvEscapes(1)][..3] == CalledEvents();
  }

  function CalledEvents(): seq<Event> { [HttpArrives(0, "i"), InvAwaits(1, "i"), InvResumes(1)] }

  /** One request reaches its invocation. */
  lemma CalledRun() returns (s: State)
    ensures s == Run(CalledEvents())
    ensures s == State(map["i" := Slots(None, true, NoneObj, false)], map[0 := HttpTask("i", AwaitingResponse)],
                       map[1 := InvTask("i", Running(0))], [])
  {
    s := Run(CalledEvents());
    assert CalledEvents()[..2] == [HttpArrives(0, "i"), InvAwaits(1, "i")];
    assert [HttpArrives(0, "i"), InvAwaits(1, "i")][..1] == [HttpArrives(0, "i")];
    assert [HttpArrives(0, "i")][..0] == [];
  }

  /** A function that returns None, and one that returns an exception object: a Success for the host, while
      the HTTP side has no response, or raises. */
  lemma SuccessesWithoutReply(exc: Exc)
    ensures var s := Run(CalledEvents() + [InvFinishes(1, CallReturned(NoneObj), true, None), HttpResumes(0)]);
            s.queue == [Answer(1, "i", Success(NoneObj))] && s.http == map[0 := HttpTask("i", NoResponseFound)]
    ensures var s := Run(CalledEvents() + [InvFinishes(1, CallReturned(ExcObj(exc)), true, None), HttpResumes(0)]);
            s.queue == [Answer(1, "i", Success(ExcObj(exc)))] && s.http == map[0 := HttpTask("i", RaisedResponse(exc))]
  {
    ReturnsAndResumes(NoneObj);
    ReturnsAndResumes(ExcObj(exc));
  }

  lemma ReturnsAndResumes(v: PyObj)
    ensures var s := Run(CalledEvents() + [InvFinishes(1, CallReturned(v), true, None), HttpResumes(0)]);
            s.queue == [Answer(1, "i", Success(v))] && s.http == map[0 := HttpTask("i", Delivered(v))]
  {
    var s := CalledRun();
    var finish := InvFinishes(1, CallReturned(v), true, None);
    var some, all := CalledEvents() + [finish], CalledEvents() + [finish, HttpResumes(0)];
    assert all[..|all| - 1] == some && some[..|some| - 1] == CalledEvents();
    FinishEffect(s, finish);
  }
}
