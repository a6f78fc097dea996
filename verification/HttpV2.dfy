/** The HTTP v2 coordinator: one context reference per invocation id, with a one-slot mailbox and a
    never-cleared event in each direction. */
module HttpV2 {
  import opened Outcomes

  type Id = string

  /** An HTTP request object; its handler task is its identity. */
  type Request = nat

  /** What a user function returns, or the exception posted in its place. */
  datatype PyObj = NoneObj | Plain(v: int) | ExcObj(exc: Exc)

  /** The contents of one context reference. */
  datatype Slots = Slots(request: Option<Request>, requestSet: bool, response: PyObj, responseSet: bool)

  type References = map<Id, Slots>

  const EMPTY := Slots(None, false, NoneObj, false)

  function EnsureReference(refs: References, id: Id): References {
    if id in refs then refs else refs[id := EMPTY]
  }

  function SetRequest(refs: References, id: Id, request: Request): (r: References)
    ensures id in r
  {
    var refs' := EnsureReference(refs, id);
    refs'[id := refs'[id].(request := Some(request), requestSet := true)]
  }

  /** A response for an id nobody referred to yet is a KeyError. */
  function SetResponse(refs: References, id: Id, response: PyObj): Outcome<References> {
    if id !in refs then Raised(KeyError)
    else Returned(refs[id := refs[id].(response := response, responseSet := true)])
  }

  /** Emptying a slot goes through the setter, which sets the event (again). */
  function PopRequest(refs: References, id: Id): (References, Outcome<Request>)
    requires id in refs
  {
    match refs[id].request
    case None => (refs, Raised(ValueError))
    case Some(r) => (refs[id := refs[id].(request := None, requestSet := true)], Returned(r))
  }

  function PopResponse(refs: References, id: Id): (References, Outcome<PyObj>)
    requires id in refs
  {
    if refs[id].response.NoneObj? then (refs, Raised(ValueError))
    else (refs[id := refs[id].(response := NoneObj, responseSet := true)], Returned(refs[id].response))
  }

  class ContextReference {
    var httpRequest: Option<Request>
    var httpResponse: PyObj
    var requestAvailable: bool
    var responseAvailable: bool

    ghost function View(): Slots
      reads this
    {
      Slots(httpRequest, requestAvailable, httpResponse, responseAvailable)
    }

    constructor ()
      ensures View() == EMPTY
    {
      httpRequest, httpResponse := None, NoneObj;
      requestAvailable, responseAvailable := false, false;
    }

    method SetHttpRequest(value: Option<Request>)
      modifies this
      ensures View() == old(View()).(request := value, requestSet := true)
    {
      httpRequest := value;
      requestAvailable := true;
    }

    method SetHttpResponse(value: PyObj)
      modifies this
      ensures View() == old(View()).(response := value, responseSet := true)
    {
      httpResponse := value;
      responseAvailable := true;
    }
  }

  class HttpCoordinator {
    var contextReferences: map<Id, ContextReference>

    /** Two ids never share a context reference. */
    ghost predicate Valid()
      reads this
    {
      forall a, b :: a in contextReferences && b in contextReferences && a != b ==>
        contextReferences[a] != contextReferences[b]
    }

    ghost function View(): References
      reads this, contextReferences.Values
    {
      map id | id in contextReferences :: contextReferences[id].View()
    }

    constructor ()
      ensures Valid() && View() == map[]
    {
      contextReferences := map[];
    }

    method EnsureContextReference(id: Id)
      requires Valid()
      modifies this
      ensures Valid() && View() == EnsureReference(old(View()), id) && id in contextReferences
      ensures forall r :: r in contextReferences.Values ==> r in old(contextReferences.Values) || fresh(r)
    {
      if id !in contextReferences {
        ghost var before := View();
        var reference := new ContextReference();
        contextReferences := contextReferences[id := reference];
        assert View() == before[id := EMPTY];
      }
    }

    method SetHttpRequest(id: Id, request: Request)
      requires Valid()
      modifies this, contextReferences.Values
      ensures Valid() && View() == SetRequest(old(View()), id, request)
    {
      EnsureContextReference(id);
      ghost var before := View();
      contextReferences[id].SetHttpRequest(Some(request));
      assert View() == before[id := before[id].(request := Some(request), requestSet := true)];
    }

    method SetHttpResponse(id: Id, response: PyObj) returns (r: Outcome<()>)
      requires Valid()
      modifies contextReferences.Values
      ensures Valid()
      ensures var spec := SetResponse(old(View()), id, response);
              && (r.Raised? <==> spec.Raised?) && (r.Raised? ==> r.exc == spec.exc && View() == old(View()))
              && (r.Returned? ==> View() == spec.value)
    {
      if id !in contextReferences { return Raised(KeyError); }
      contextReferences[id].SetHttpResponse(response);
      assert View() == old(View())[id := old(View())[id].(response := response, responseSet := true)];
      return Returned(());
    }

    /** get_http_request_async before its await, and the guard it then waits for. */
    method GetHttpRequestStart(id: Id) returns (ready: bool)
      requires Valid()
      modifies this
      ensures Valid() && View() == EnsureReference(old(View()), id) && id in contextReferences
      ensures ready == View()[id].requestSet
    {
      EnsureContextReference(id);
      ready := contextReferences[id].requestAvailable;
    }

    method PopHttpRequest(id: Id) returns (r: Outcome<Request>)
      requires Valid() && id in contextReferences
      modifies contextReferences.Values
      ensures Valid() && (View(), r) == PopRequest(old(View()), id)
    {
      var request := contextReferences[id].httpRequest;
      if request.None? { return Raised(ValueError); }
      contextReferences[id].SetHttpRequest(None);
      assert View() == old(View())[id := old(View())[id].(request := None, requestSet := true)];
      return Returned(request.value);
    }

    /** await_http_response_async before its await. */
    method AwaitHttpResponseStart(id: Id) returns (r: Outcome<bool>)
      requires Valid()
      ensures r == if id in View() then Returned(View()[id].responseSet) else Raised(KeyError)
    {
      if id !in contextReferences { return Raised(KeyError); }
      return Returned(contextReferences[id].responseAvailable);
    }

    method PopHttpResponse(id: Id) returns (r: Outcome<PyObj>)
      requires Valid() && id in contextReferences
      modifies contextReferences.Values
      ensures Valid() && (View(), r) == PopResponse(old(View()), id)
    {
      var response := contextReferences[id].httpResponse;
      if response.NoneObj? { return Raised(ValueError); }
      contextReferences[id].SetHttpResponse(NoneObj);
      assert View() == old(View())[id := old(View())[id].(response := NoneObj, responseSet := true)];
      return Returned(response);
    }
  }
}
