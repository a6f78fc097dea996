/** What the dispatcher answers to each kind of request, in terms of the request, the app and the run. */
module IndexingAnswers {
  import opened Outcomes
  import opened Indexing

  predicate Silent(f: IndexedFunction) { f.registering == None && f.describing == None }

  predicate Raises(f: IndexedFunction, exc: Exc) {
    f.registering == Some(exc) || (f.registering == None && f.describing == Some(exc))
  }

  predicate RaisesFirst(fs: seq<IndexedFunction>, i: nat, exc: Exc)
    requires i < |fs|
  {
    Raises(fs[i], exc) && forall j :: 0 <= j < i ==> Silent(fs[j])
  }

  /** Indexing the app ends with this exception, that of the first function that raises one. */
  predicate AppRaises(app: App, exc: Exc) {
    match app
    case NoScript => false
    case Unloadable(e) => e == exc
    case Functions(fs) => exists i :: 0 <= i < |fs| && RaisesFirst(fs, i, exc)
  }

  predicate AppReturns(app: App) {
    match app
    case NoScript => true
    case Unloadable(_) => false
    case Functions(fs) => forall i :: 0 <= i < |fs| ==> Silent(fs[i])
  }

  predicate RegistersAt(fs: seq<IndexedFunction>, i: nat, id: FunctionId)
    requires i < |fs|
  {
    fs[i].id == id && fs[i].registering == None && forall j :: 0 <= j < i ==> Silent(fs[j])
  }

  /** Indexing the app registers this function, before anything of the app raises. */
  predicate Registers(app: App, id: FunctionId) {
    app.Functions? && exists i :: 0 <= i < |app.fs| && RegistersAt(app.fs, i, id)
  }

  // ----- Indexing -----

  lemma ShiftFirst(fs: seq<IndexedFunction>, exc: Exc, id: FunctionId)
    requires fs != [] && Silent(fs[0])
    ensures AppRaises(Functions(fs), exc) <==> AppRaises(Functions(fs[1..]), exc)
    ensures Registers(Functions(fs), id) <==> id == fs[0].id || Registers(Functions(fs[1..]), id)
    ensures AppReturns(Functions(fs)) <==> AppReturns(Functions(fs[1..]))
  {
    var rest := fs[1..];
    assert forall j :: 0 <= j < |rest| ==> rest[j] == fs[j + 1];
    assert forall j :: 0 < j < |fs| ==> fs[j] == rest[j - 1];
    forall i | 0 <= i < |rest|
      ensures RaisesFirst(rest, i, exc) <==> RaisesFirst(fs, i + 1, exc)
      ensures RegistersAt(rest, i, id) <==> RegistersAt(fs, i + 1, id)
    {
    }
    if i :| 0 <= i < |fs| && RaisesFirst(fs, i, exc) { assert i > 0 && RaisesFirst(rest, i - 1, exc); }
    if i :| 0 <= i < |rest| && RaisesFirst(rest, i, exc) { assert RaisesFirst(fs, i + 1, exc); }
    if i :| 0 <= i < |rest| && RegistersAt(rest, i, id) { assert RegistersAt(fs, i + 1, id); }
    if i :| 0 < i < |fs| && RegistersAt(fs, i, id) { assert RegistersAt(rest, i - 1, id); }
    if id == fs[0].id { assert RegistersAt(fs, 0, id); }
  }

  lemma {:induction false} ProcessMeaning(registered: set<FunctionId>, fs: seq<IndexedFunction>, exc: Exc,
                                          id: FunctionId)
    ensures var (after, r) := Process(registered, fs);
            && (r == Raised(exc) <==> AppRaises(Functions(fs), exc))
            && (r.Returned? <==> AppReturns(Functions(fs)))
            && (id in after <==> id in registered || Registers(Functions(fs), id))
    decreases |fs|
  {
    if fs != [] {
      if Silent(fs[0]) {
        ProcessMeaning(registered + {fs[0].id}, fs[1..], exc, id);
        ShiftFirst(fs, exc, id);
      } else {
        assert Raises(fs[0], exc) <==> RaisesFirst(fs, 0, exc);
        assert RegistersAt(fs, 0, id) <==> fs[0].registering == None && fs[0].id == id;
        assert forall i :: 0 < i < |fs| ==> !RaisesFirst(fs, i, exc) && !RegistersAt(fs, i, id);
      }
    }
  }

  /** Everything an app does to the state when it is indexed. */
  ghost predicate Indexes(st: State, next: State, app: App) {
    && (forall id :: id in next.registered <==> id in st.registered || Registers(app, id))
    && next.result ==
       (if !AppReturns(app) then st.result
        else if app.Functions? && app.fs != [] then Some(seq(|app.fs|, i requires 0 <= i < |app.fs| => app.fs[i].id))
        else None)
  }

  lemma LoadMetadataMeaning(st: State, app: App)
    ensures var (next, r) := LoadMetadata(st, app);
            && Indexes(st, next, app) && next.exception == st.exception
            && (r.Returned? <==> AppReturns(app))
            && (forall exc :: r == Raised(exc) <==> AppRaises(app, exc))
  {
    if app.Functions? {
      ProcessEffect(st.registered, app.fs);
      forall exc ensures Process(st.registered, app.fs).1 == Raised(exc) <==> AppRaises(app, exc) {
        ProcessMeaning(st.registered, app.fs, exc, "");
      }
      forall id ensures id in Process(st.registered, app.fs).0 <==> id in st.registered || Registers(app, id) {
        ProcessMeaning(st.registered, app.fs, ValueError, id);
      }
      ProcessMeaning(st.registered, app.fs, ValueError, "");
    }
  }

  // ----- The requests -----

  /** Start-up indexing, with the HTTP v2 set-up after it, ends with this exception. */
  predicate InitEnds(app: App, httpCheck: Option<Exc>, exc: Exc) {
    AppRaises(app, exc) || (AppReturns(app) && httpCheck == Some(exc))
  }

  /** Without start-up indexing an initialisation or reload is just answered. With it, the app is indexed; an
      exception is recorded and the request still answered, except that a server that cannot start fails a
      reload, and leaves an initialisation without an answer. */
  lemma InitializeMeaning(st: State, reload: bool, initIndexing: bool, app: App, httpCheck: Option<Exc>)
    ensures var (next, r) := Step(st, Initialize(reload, initIndexing, app, httpCheck));
            && (r == Initialized <==> !initIndexing || !InitEnds(app, httpCheck, HttpServerInitError))
            && (r == ReloadFailure(HttpServerInitError) <==>
                  initIndexing && reload && InitEnds(app, httpCheck, HttpServerInitError))
            && (r == NoAnswer <==> initIndexing && !reload && InitEnds(app, httpCheck, HttpServerInitError))
            && (!initIndexing ==> next == st)
            && (initIndexing ==> Indexes(st, next, app))
            && (forall exc :: initIndexing && InitEnds(app, httpCheck, exc) && exc != HttpServerInitError ==>
                  next.exception == Some(exc))
            && ((forall exc :: InitEnds(app, httpCheck, exc) ==> exc == HttpServerInitError) ==>
                  next.exception == st.exception)
  {
    LoadMetadataMeaning(st, app);
    var r := LoadMetadata(st, app).1;
    if r.Raised? {
      assert InitEnds(app, httpCheck, r.exc);
    } else if httpCheck.Some? {
      assert InitEnds(app, httpCheck, httpCheck.value);
    }
  }

  /** What a request that indexes when it is asked does to the state. */
  ghost predicate IndexesNow(st: State, next: State, app: App) {
    && Indexes(st, next, app)
    && (forall exc :: AppRaises(app, exc) ==> next.exception == Some(exc))
    && (AppReturns(app) ==> next.exception == st.exception)
  }

  lemma TryLoadMeaning(st: State, app: App)
    ensures IndexesNow(st, TryLoadMetadata(st, app), app)
    ensures !AppReturns(app) ==> TryLoadMetadata(st, app).exception.Some?
    ensures forall exc :: !AppReturns(app) && TryLoadMetadata(st, app).exception == Some(exc) ==> AppRaises(app, exc)
  {
    LoadMetadataMeaning(st, app);
    var r := LoadMetadata(st, app).1;
    if r.Raised? { assert AppRaises(app, r.exc); }
  }

  /** A metadata request indexes the app unless that was done at start-up. It answers with the exception on
      record if there is one, else with the stored result, and with default indexing if there is none. */
  lemma MetadataMeaning(st: State, initIndexing: bool, app: App)
    ensures var (next, r) := Step(st, Metadata(initIndexing, app));
            && (initIndexing ==> next == st)
            && (!initIndexing ==> IndexesNow(st, next, app))
            && (forall exc :: r == MetadataFailure(exc) <==> next.exception == Some(exc))
            && (forall ids :: ids != [] ==>
                  (r == MetadataSuccess(false, ids) <==> next.exception == None && next.result == Some(ids)))
            && (r == MetadataSuccess(true, []) <==> next.exception == None && next.result in {None, Some([])})
  {
    TryLoadMeaning(st, app);
  }

  /** When a load succeeds, and what it fails with otherwise: a registered function needs its extensions
      only; a worker-indexed one needs its app to be indexed without an exception, now or on record; a
      legacy one needs to be loaded itself. */
  lemma LoadMeaning(st: State, load: Request)
    requires load.Load?
    ensures var known, ext := load.id in st.registered, load.extension;
            var r := Step(st, load).1;
            && (r == LoadSuccess <==>
                  && ext == None
                  && (known || (if load.workerIndexed then st.exception == None && AppReturns(load.app)
                                else load.legacy == None)))
            && (forall exc :: r == LoadFailure(exc) <==>
                  if known then ext == Some(exc)
                  else if !load.workerIndexed then load.legacy == Some(exc) || (load.legacy == None && ext == Some(exc))
                  else || AppRaises(load.app, exc)
                       || (AppReturns(load.app)
                           && (st.exception == Some(exc) || (st.exception == None && ext == Some(exc)))))
  {
    TryLoadMeaning(st, load.app);
  }

  /** What a load does to the state: nothing to a registered function; a legacy function that loads is
      registered, even if an extension fails. */
  lemma LoadEffect(st: State, load: Request)
    requires load.Load?
    ensures var next := Step(st, load).0;
            if load.id in st.registered then next == st
            else if load.workerIndexed then IndexesNow(st, next, load.app)
            else next == st.(registered := st.registered + if load.legacy == None then {load.id} else {})
  {
    TryLoadMeaning(st, load.app);
  }

  lemma InvokeMeaning(st: State, id: FunctionId)
    ensures Step(st, Invoke(id)) == (st, if id in st.registered then FunctionFound else FunctionMissing)
  {
  }

  // ----- Metadata after start-up indexing -----

  /** The request makes the dispatcher index an app. */
  predicate IsIndexing(st: State, req: Request) {
    match req
    case Initialize(_, initIndexing, _, _) => initIndexing
    case Metadata(initIndexing, _) => !initIndexing
    case Load(id, workerIndexed, _, _, _) => workerIndexed && id !in st.registered
    case Invoke(_) => false
  }

  predicate NoneIndexes(st: State, reqs: seq<Request>)
    decreases |reqs|
  {
    reqs != [] ==> !IsIndexing(st, reqs[0]) && NoneIndexes(Step(st, reqs[0]).0, reqs[1..])
  }

  lemma {:induction false} QuietRun(st: State, reqs: seq<Request>)
    requires NoneIndexes(st, reqs)
    ensures Run(st, reqs).result == st.result && Run(st, reqs).exception == st.exception
    decreases |reqs|
  {
    if reqs != [] {
      QuietRun(Step(st, reqs[0]).0, reqs[1..]);
    }
  }

  /** After an app was indexed at start-up, and any requests that do not index again, a metadata request
      tells the host all its functions, in order, if and only if no exception is on record and none of them
      raised. (When one raised the exception that is not recorded, the stored result is the one before, and
      counts if it happens to be the same.) */
  lemma MetadataAfterStartUp(before: seq<Request>, reload: bool, fs: seq<IndexedFunction>, httpCheck: Option<Exc>,
                             later: seq<Request>, app: App)
    requires fs != []
    requires NoneIndexes(Step(Run(INITIAL, before), Initialize(reload, true, Functions(fs), httpCheck)).0, later)
    ensures var ids := seq(|fs|, i requires 0 <= i < |fs| => fs[i].id);
            var st := Run(Step(Run(INITIAL, before), Initialize(reload, true, Functions(fs), httpCheck)).0, later);
            Step(st, Metadata(true, app)) == (st, MetadataSuccess(false, ids)) <==>
              && st.exception == None
              && ((forall i :: 0 <= i < |fs| ==> Silent(fs[i])) || Run(INITIAL, before).result == Some(ids))
  {
    var st0 := Run(INITIAL, before);
    var st1 := Step(st0, Initialize(reload, true, Functions(fs), httpCheck)).0;
    InitializeMeaning(st0, reload, true, Functions(fs), httpCheck);
    QuietRun(st1, later);
    MetadataMeaning(Run(st1, later), true, app);
  }

  /** From the very start: the whole app is reported exactly when nothing of it raised and the HTTP v2
      set-up recorded nothing. */
  lemma FirstStartUpReported(reload: bool, fs: seq<IndexedFunction>, httpCheck: Option<Exc>, later: seq<Request>,
                             app: App)
    requires fs != []
    requires NoneIndexes(Step(INITIAL, Initialize(reload, true, Functions(fs), httpCheck)).0, later)
    ensures var st := Run(Step(INITIAL, Initialize(reload, true, Functions(fs), httpCheck)).0, later);
            Step(st, Metadata(true, app)).1 == MetadataSuccess(false, seq(|fs|, i requires 0 <= i < |fs| => fs[i].id))
            <==> (forall i :: 0 <= i < |fs| ==> Silent(fs[i])) && httpCheck in {None, Some(HttpServerInitError)}
  {
    MetadataAfterStartUp([], reload, fs, httpCheck, later, app);
    InitializeMeaning(INITIAL, reload, true, Functions(fs), httpCheck);
    QuietRun(Step(INITIAL, Initialize(reload, true, Functions(fs), httpCheck)).0, later);
    MetadataMeaning(Run(Step(INITIAL, Initialize(reload, true, Functions(fs), httpCheck)).0, later), true, app);
    if httpCheck.Some? && AppReturns(Functions(fs)) {
      assert InitEnds(Functions(fs), httpCheck, httpCheck.value);
    }
  }
}
