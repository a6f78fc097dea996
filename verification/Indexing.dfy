/** The dispatcher's indexing state over whole runs: the functions it registered, the metadata it last
    computed and the exception it last met while computing it. */
module Indexing {
  import opened Outcomes

  type FunctionId = string

  /** One function of an app as process_indexed_function meets it: registering it may raise, and so may
      describing it once it is registered. */
  datatype IndexedFunction = IndexedFunction(id: FunctionId, registering: Option<Exc>, describing: Option<Exc>)

  /** What indexing an app directory meets: no script, a script that cannot be loaded, or its functions. */
  datatype App = NoScript | Unloadable(exc: Exc) | Functions(fs: seq<IndexedFunction>)

  datatype State = State(registered: set<FunctionId>, result: Option<seq<FunctionId>>, exception: Option<Exc>)

  const INITIAL := State({}, None, None)

  datatype Request =
    /** Worker initialisation or environment reload; the HTTP v2 check and server start come after indexing. */
    | Initialize(reload: bool, initIndexing: bool, app: App, httpCheck: Option<Exc>)
    | Metadata(initIndexing: bool, app: App)
    /** Loading a legacy function, and the extensions of any function, may raise. */
    | Load(id: FunctionId, workerIndexed: bool, app: App, legacy: Option<Exc>, extension: Option<Exc>)
    | Invoke(id: FunctionId)

  datatype Response =
    | Initialized
    /** A reload answers with its failure; a failed initialisation is not answered. */
    | ReloadFailure(exc: Exc)
    | NoAnswer
    | MetadataSuccess(useDefault: bool, ids: seq<FunctionId>)
    | MetadataFailure(exc: Exc)
    | LoadSuccess
    | LoadFailure(exc: Exc)
    | FunctionFound
    | FunctionMissing

  /** Registers the functions in order; a failure keeps what was registered before it. */
  function Process(registered: set<FunctionId>, fs: seq<IndexedFunction>): (set<FunctionId>, Outcome<seq<FunctionId>>)
    decreases |fs|
  {
    if fs == [] then (registered, Returned([]))
    else if fs[0].registering.Some? then (registered, Raised(fs[0].registering.value))
    else if fs[0].describing.Some? then (registered + {fs[0].id}, Raised(fs[0].describing.value))
    else
      var (rest, ids) := Process(registered + {fs[0].id}, fs[1..]);
      (rest, if ids.Raised? then ids else Returned([fs[0].id] + ids.value))
  }

  /** load_function_metadata: the stored result changes only when indexing returns. */
  function LoadMetadata(st: State, app: App): (State, Outcome<()>) {
    match app
    case NoScript => (st.(result := None), Returned(()))
    case Unloadable(exc) => (st, Raised(exc))
    case Functions(fs) =>
      if fs == [] then (st.(result := None), Returned(()))
      else
        var (registered, ids) := Process(st.registered, fs);
        match ids
        case Raised(exc) => (st.(registered := registered), Raised(exc))
        case Returned(list) => (st.(registered := registered, result := Some(list)), Returned(()))
  }

  /** The same with the exception recorded instead of raised. */
  function TryLoadMetadata(st: State, app: App): State {
    var (next, r) := LoadMetadata(st, app);
    if r.Raised? then next.(exception := Some(r.exc)) else next
  }

  /** The exception that start-up indexing, or the HTTP v2 set-up after it, ends with. */
  function InitException(st: State, app: App, httpCheck: Option<Exc>): Option<Exc> {
    var r := LoadMetadata(st, app).1;
    if r.Raised? then Some(r.exc) else httpCheck
  }

  function Step(st: State, req: Request): (State, Response) {
    match req
    case Initialize(reload, initIndexing, app, httpCheck) =>
      if !initIndexing then (st, Initialized)
      else
        var next := LoadMetadata(st, app).0;
        (match InitException(st, app, httpCheck)
        case None => (next, Initialized)
        case Some(HttpServerInitError) => (next, if reload then ReloadFailure(HttpServerInitError) else NoAnswer)
        case Some(exc) => (next.(exception := Some(exc)), Initialized))
    case Metadata(initIndexing, app) =>
      var next := if initIndexing then st else TryLoadMetadata(st, app);
      (next,
       if next.exception.Some? then MetadataFailure(next.exception.value)
       else if next.result.Some? && next.result.value != [] then MetadataSuccess(false, next.result.value)
       else MetadataSuccess(true, []))
    case Load(id, workerIndexed, app, legacy, extension) =>
      if id in st.registered then
        (st, if extension.Some? then LoadFailure(extension.value) else LoadSuccess)
      else if workerIndexed then
        var next := TryLoadMetadata(st, app);
        (next,
         if next.exception.Some? then LoadFailure(next.exception.value)
         else if extension.Some? then LoadFailure(extension.value)
         else LoadSuccess)
      else if legacy.Some? then (st, LoadFailure(legacy.value))
      else
        (st.(registered := st.registered + {id}),
         if extension.Some? then LoadFailure(extension.value) else LoadSuccess)
    case Invoke(id) => (st, if id in st.registered then FunctionFound else FunctionMissing)
  }

  class Dispatcher {
    var functions: set<FunctionId>
    var metadataResult: Option<seq<FunctionId>>
    var metadataException: Option<Exc>

    ghost function View(): State
      reads this
    {
      State(functions, metadataResult, metadataException)
    }

    constructor ()
      ensures View() == INITIAL
    {
      functions, metadataResult, metadataException := {}, None, None;
    }

    /** The loop of process_indexed_function. */
    method ProcessIndexedFunctions(fs: seq<IndexedFunction>) returns (r: Outcome<seq<FunctionId>>)
      modifies this`functions
      ensures (functions, r) == Process(old(functions), fs)
    {
      var results := [];
      var i := 0;
      ghost var all := Process(functions, fs).1;
      assert fs[0..] == fs && (all.Returned? ==> results + all.value == all.value);
      while i < |fs|
        invariant 0 <= i <= |fs|
        invariant var (rest, ids) := Process(functions, fs[i..]);
                  Process(old(functions), fs) == (rest, if ids.Raised? then ids else Returned(results + ids.value))
      {
        var f := fs[i];
        assert fs[i..][0] == f && fs[i..][1..] == fs[i + 1..];
        if f.registering.Some? { return Raised(f.registering.value); }
        functions := functions + {f.id};
        if f.describing.Some? { return Raised(f.describing.value); }
        ghost var tail := Process(functions, fs[i + 1..]).1;
        assert tail.Returned? ==> results + ([f.id] + tail.value) == (results + [f.id]) + tail.value;
        results := results + [f.id];
        i := i + 1;
      }
      assert fs[i..] == [] && results + [] == results;
      return Returned(results);
    }

    method LoadFunctionMetadata(app: App) returns (r: Outcome<()>)
      modifies this`functions, this`metadataResult
      ensures (View(), r) == LoadMetadata(old(View()), app)
    {
      match app {
        case NoScript =>
          metadataResult := None;
          return Returned(());
        case Unloadable(exc) =>
          return Raised(exc);
        case Functions(fs) =>
          if fs == [] {
            metadataResult := None;
            return Returned(());
          }
          var ids := ProcessIndexedFunctions(fs);
          if ids.Raised? { return Raised(ids.exc); }
          metadataResult := Some(ids.value);
          return Returned(());
      }
    }

    method HandleInitialize(reload: bool, initIndexing: bool, app: App, httpCheck: Option<Exc>) returns (r: Response)
      modifies this
      ensures (View(), r) == Step(old(View()), Initialize(reload, initIndexing, app, httpCheck))
    {
      if initIndexing {
        var load := LoadFunctionMetadata(app);
        var raised := if load.Raised? then Some(load.exc) else httpCheck;
        if raised == Some(HttpServerInitError) {
          return if reload then ReloadFailure(HttpServerInitError) else NoAnswer;
        }
        if raised.Some? { metadataException := raised; }
      }
      return Initialized;
    }

    method HandleMetadata(initIndexing: bool, app: App) returns (r: Response)
      modifies this
      ensures (View(), r) == Step(old(View()), Metadata(initIndexing, app))
    {
      if !initIndexing {
        var load := LoadFunctionMetadata(app);
        if load.Raised? { metadataException := Some(load.exc); }
      }
      if metadataException.Some? { return MetadataFailure(metadataException.value); }
      if metadataResult.Some? && metadataResult.value != [] { return MetadataSuccess(false, metadataResult.value); }
      return MetadataSuccess(true, []);
    }

    method HandleLoad(id: FunctionId, workerIndexed: bool, app: App, legacy: Option<Exc>, extension: Option<Exc>)
      returns (r: Response)
      modifies this
      ensures (View(), r) == Step(old(View()), Load(id, workerIndexed, app, legacy, extension))
    {
      if id !in functions {
        if workerIndexed {
          var load := LoadFunctionMetadata(app);
          if load.Raised? { metadataException := Some(load.exc); }
          if metadataException.Some? { return LoadFailure(metadataException.value); }
        } else {
          if legacy.Some? { return LoadFailure(legacy.value); }
          functions := functions + {id};
        }
      }
      if extension.Some? { return LoadFailure(extension.value); }
      return LoadSuccess;
    }
  }

  // ----- Whole runs -----

  function Run(st: State, reqs: seq<Request>): State
    decreases |reqs|
  {
    if reqs == [] then st else Run(Step(st, reqs[0]).0, reqs[1..])
  }

  ghost predicate ResultRegistered(st: State) {
    st.result.Some? ==> forall id :: id in st.result.value ==> id in st.registered
  }

  lemma {:induction false} ProcessEffect(registered: set<FunctionId>, fs: seq<IndexedFunction>)
    ensures var (after, ids) := Process(registered, fs);
            && registered <= after
            && (ids.Returned? ==> && ids.value == seq(|fs|, i requires 0 <= i < |fs| => fs[i].id)
                                  && after == registered + (set i | 0 <= i < |fs| :: fs[i].id))
            && (ids.Raised? <==> exists i :: 0 <= i < |fs| && (fs[i].registering.Some? || fs[i].describing.Some?))
    decreases |fs|
  {
    if fs != [] {
      var mid := registered + {fs[0].id};
      ProcessEffect(mid, fs[1..]);
      assert forall i :: 0 < i < |fs| ==> fs[i] == fs[1..][i - 1];
      if Process(registered, fs).1.Returned? {
        var (after, ids) := Process(registered, fs);
        assert ids.value == seq(|fs|, i requires 0 <= i < |fs| => fs[i].id);
        forall id ensures id in after <==> id in registered + (set i | 0 <= i < |fs| :: fs[i].id) {
          if exists i :: 0 <= i < |fs| && fs[i].id == id {
            var i :| 0 <= i < |fs| && fs[i].id == id;
            if i > 0 { assert fs[1..][i - 1].id == id; }
          }
        }
      }
    }
  }

  /** One step: registrations only grow, the stored result stays registered, and a recorded exception is
      not cleared (a later one may replace it). */
  lemma StepKeeps(st: State, req: Request)
    requires ResultRegistered(st)
    ensures var next := Step(st, req).0;
            && st.registered <= next.registered && ResultRegistered(next)
            && (st.exception.Some? ==> next.exception.Some?)
  {
    if !req.Invoke? && req.app.Functions? {
      ProcessEffect(st.registered, req.app.fs);
    }
  }

  lemma {:induction false} RunKeeps(st: State, reqs: seq<Request>)
    requires ResultRegistered(st)
    ensures var after := Run(st, reqs);
            && st.registered <= after.registered && ResultRegistered(after)
            && (st.exception.Some? ==> after.exception.Some?)
    decreases |reqs|
  {
    if reqs != [] {
      StepKeeps(st, reqs[0]);
      RunKeeps(Step(st, reqs[0]).0, reqs[1..]);
    }
  }

  /** A function the host was told about stays usable for the rest of the run: loading it changes
      nothing and fails only if an extension does, and invoking it finds it. */
  lemma ReportedFunctionsStayUsable(before: seq<Request>, ask: Request, later: seq<Request>, load: Request)
    requires var r := Step(Run(INITIAL, before), ask).1; r.MetadataSuccess? && load.Load? && load.id in r.ids
    ensures var st := Run(Step(Run(INITIAL, before), ask).0, later);
            && Step(st, load) == (st, if load.extension.Some? then LoadFailure(load.extension.value) else LoadSuccess)
            && Step(st, Invoke(load.id)) == (st, FunctionFound)
  {
    RunKeeps(INITIAL, before);
    StepKeeps(Run(INITIAL, before), ask);
    RunKeeps(Step(Run(INITIAL, before), ask).0, later);
  }

  /** A metadata request that indexes answers with every function of the app, in order and registered, if
      and only if no exception is on record and no function of the app raises. */
  lemma MetadataReportsWholeApp(st: State, fs: seq<IndexedFunction>)
    requires fs != []
    ensures var (next, r) := Step(st, Metadata(false, Functions(fs)));
            && (r == MetadataSuccess(false, seq(|fs|, i requires 0 <= i < |fs| => fs[i].id)) <==>
                  && st.exception.None?
                  && forall i :: 0 <= i < |fs| ==> fs[i].registering.None? && fs[i].describing.None?)
            && (r.MetadataSuccess? ==> next.registered == st.registered + (set i | 0 <= i < |fs| :: fs[i].id))
            && (r.MetadataSuccess? || r.MetadataFailure?) && !(r.MetadataSuccess? && r.useDefault)
  {
    ProcessEffect(st.registered, fs);
  }

  /** The request makes the dispatcher record an exception. */
  predicate Records(st: State, req: Request) {
    match req
    case Initialize(_, initIndexing, app, httpCheck) =>
      initIndexing && InitException(st, app, httpCheck) !in {None, Some(HttpServerInitError)}
    case Metadata(initIndexing, app) => !initIndexing && LoadMetadata(st, app).1.Raised?
    case Load(id, workerIndexed, app, _, _) => id !in st.registered && workerIndexed && LoadMetadata(st, app).1.Raised?
    case Invoke(_) => false
  }

  ghost predicate RecordedBy(st: State, reqs: seq<Request>) {
    exists i :: 0 <= i < |reqs| && Records(Run(st, reqs[..i]), reqs[i])
  }

  lemma RecordedSnoc(st: State, reqs: seq<Request>, req: Request)
    ensures RecordedBy(st, reqs + [req]) <==> RecordedBy(st, reqs) || Records(Run(st, reqs), req)
  {
    var all := reqs + [req];
    assert all[..|reqs|] == reqs && all[|reqs|] == req;
    forall i | 0 <= i < |reqs|
      ensures Records(Run(st, all[..i]), all[i]) <==> Records(Run(st, reqs[..i]), reqs[i])
    {
      assert all[..i] == reqs[..i];
    }
  }

  /** After any run, an exception is recorded if and only if some request of the run recorded one. */
  lemma {:induction false} ExceptionIffRecorded(st: State, reqs: seq<Request>)
    requires st.exception.None?
    ensures Run(st, reqs).exception.Some? <==> RecordedBy(st, reqs)
    decreases |reqs|
  {
    if reqs != [] {
      var last := |reqs| - 1;
      ExceptionIffRecorded(st, reqs[..last]);
      RecordedSnoc(st, reqs[..last], reqs[last]);
      RunSnoc(st, reqs[..last], reqs[last]);
      assert reqs[..last] + [reqs[last]] == reqs;
    }
  }

  lemma {:induction false} RunSnoc(st: State, reqs: seq<Request>, req: Request)
    ensures Run(st, reqs + [req]) == Step(Run(st, reqs), req).0
    decreases |reqs|
  {
    if reqs == [] {
      assert [req][1..] == [];
    } else {
      assert (reqs + [req])[1..] == reqs[1..] + [req];
      RunSnoc(Step(st, reqs[0]).0, reqs[1..], req);
    }
  }

  /** Once indexing failed, every later metadata answer is a failure, and so is every load of a
      worker-indexed function that is not registered yet. */
  lemma FailureIsPermanent(before: seq<Request>, later: seq<Request>, req: Request)
    requires RecordedBy(INITIAL, before)
    ensures var st := Run(Run(INITIAL, before), later);
            && (req.Metadata? ==> Step(st, req).1.MetadataFailure?)
            && (req.Load? && req.workerIndexed && req.id !in st.registered ==> Step(st, req).1.LoadFailure?)
  {
    ExceptionIffRecorded(INITIAL, before);
    RunKeeps(INITIAL, before);
    RunKeeps(Run(INITIAL, before), later);
    StepKeeps(Run(Run(INITIAL, before), later), req);
  }

  predicate Lists(app: App, id: FunctionId) {
    app.Functions? && exists i :: 0 <= i < |app.fs| && app.fs[i].id == id
  }

  /** A successful load makes the function invocable if and only if it was registered already, is a
      legacy function, or is among the functions of the app just indexed. */
  lemma LoadSuccessRegistersIff(st: State, load: Request)
    requires load.Load? && Step(st, load).1.LoadSuccess?
    ensures Step(Step(st, load).0, Invoke(load.id)).1.FunctionFound? <==>
            load.id in st.registered || !load.workerIndexed || Lists(load.app, load.id)
  {
    if load.app.Functions? {
      ProcessEffect(st.registered, load.app.fs);
    }
  }

  /** The other case happens: an app without a script answers every worker-indexed load with Success. */
  lemma LoadSuccessMayMissFunction()
    ensures var load := Load("f", true, NoScript, None, None);
            && Step(INITIAL, load).1 == LoadSuccess
            && Step(Step(INITIAL, load).0, Invoke("f")).1 == FunctionMissing
  {
  }
}
