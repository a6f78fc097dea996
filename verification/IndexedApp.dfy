/** Indexing an app through the function registry: which functions it accepts decides what the host is told. */
module IndexedApp {
  import opened Outcomes
  import I = Indexing
  import opened Registry

  /** A decorated function. Inspecting its signature and type hints may raise, and so may describing it to
      the host once it is registered. */
  datatype AppFunction = AppFunction(
    id: string, name: string, bindings: seq<Binding>, func: Func, inspecting: Option<Exc>, describing: Option<Exc>)

  predicate WellFormed(fs: seq<AppFunction>) {
    forall i :: 0 <= i < |fs| ==> DistinctNames(fs[i].func.params)
  }

  predicate Registers(f: AppFunction, implicit: Implicit) {
    f.inspecting.None? && Loadable(f.bindings, f.func, implicit)
  }

  /** What indexing needs to know of a function. */
  function Indexed(f: AppFunction, implicit: Implicit): I.IndexedFunction {
    I.IndexedFunction(f.id,
                      if f.inspecting.Some? then f.inspecting
                      else if Loadable(f.bindings, f.func, implicit) then None
                      else Some(Refusal(f.bindings, f.func, implicit)),
                      f.describing)
  }

  function IndexedAll(fs: seq<AppFunction>, implicit: Implicit): (r: seq<I.IndexedFunction>)
    ensures |r| == |fs| && forall i :: 0 <= i < |fs| ==> r[i] == Indexed(fs[i], implicit)
  {
    seq(|fs|, i requires 0 <= i < |fs| => Indexed(fs[i], implicit))
  }

  /** add_indexed_function. */
  method Register(registry: Registry, f: AppFunction, implicit: Implicit) returns (r: Outcome<FunctionInfo>)
    requires registry.Valid() && DistinctNames(f.func.params)
    modifies registry
    ensures registry.Valid()
    ensures Indexed(f, implicit).registering == if r.Raised? then Some(r.exc) else None
    ensures r.Raised? ==> registry.functions == old(registry.functions)
    ensures r.Returned? ==> registry.functions == old(registry.functions)[f.id := r.value]
    ensures r.Returned? ==> registry.functions.Keys == old(registry.functions.Keys) + {f.id}
  {
    if f.inspecting.Some? { return Raised(f.inspecting.value); }
    r := registry.AddFunction(f.id, f.name, f.bindings, f.func, implicit);
  }

  /** process_indexed_function, registering through the registry. */
  method ProcessIndexedFunctions(registry: Registry, fs: seq<AppFunction>, implicit: Implicit)
    returns (r: Outcome<seq<string>>)
    requires registry.Valid() && WellFormed(fs)
    modifies registry
    ensures registry.Valid()
    ensures (registry.functions.Keys, r) == I.Process(old(registry.functions.Keys), IndexedAll(fs, implicit))
  {
    ghost var start, all := registry.functions.Keys, IndexedAll(fs, implicit);
    var results := [];
    var i := 0;
    ContinuesStart(start, all);
    while i < |fs|
      invariant 0 <= i <= |fs| && registry.Valid()
      invariant Continues(start, registry.functions.Keys, all, i, results)
    {
      ContinuesStep(start, registry.functions.Keys, all, i, results);
      var info := Register(registry, fs[i], implicit);
      if info.Raised? { return Raised(info.exc); }
      if fs[i].describing.Some? { return Raised(fs[i].describing.value); }
      results := results + [fs[i].id];
      i := i + 1;
    }
    ContinuesEnd(start, registry.functions.Keys, all, results);
    return Returned(results);
  }

  /** Going on from the i-th function with these results ends as the whole does. */
  ghost predicate Continues(start: set<string>, now: set<string>, all: seq<I.IndexedFunction>, i: nat,
                            results: seq<string>)
    requires i <= |all|
  {
    var (rest, ids) := I.Process(now, all[i..]);
    I.Process(start, all) == (rest, if ids.Raised? then ids else Returned(results + ids.value))
  }

  lemma ContinuesStart(start: set<string>, all: seq<I.IndexedFunction>)
    ensures Continues(start, start, all, 0, [])
  {
    var ids := I.Process(start, all).1;
    assert all[0..] == all && (ids.Returned? ==> [] + ids.value == ids.value);
  }

  lemma ContinuesEnd(start: set<string>, now: set<string>, all: seq<I.IndexedFunction>, results: seq<string>)
    requires Continues(start, now, all, |all|, results)
    ensures I.Process(start, all) == (now, Returned(results))
  {
    assert all[|all|..] == [] && results + [] == results;
  }

  lemma ContinuesStep(start: set<string>, now: set<string>, all: seq<I.IndexedFunction>, i: nat, results: seq<string>)
    requires i < |all| && Continues(start, now, all, i, results)
    ensures all[i].registering.Some? ==> I.Process(start, all) == (now, Raised(all[i].registering.value))
    ensures all[i].registering.None? && all[i].describing.Some? ==>
              I.Process(start, all) == (now + {all[i].id}, Raised(all[i].describing.value))
    ensures all[i].registering.None? && all[i].describing.None? ==>
              Continues(start, now + {all[i].id}, all, i + 1, results + [all[i].id])
  {
    assert all[i..][0] == all[i] && all[i..][1..] == all[i + 1..];
    var tail := I.Process(now + {all[i].id}, all[i + 1..]).1;
    assert tail.Returned? ==> results + ([all[i].id] + tail.value) == (results + [all[i].id]) + tail.value;
  }

  /** A metadata request that indexes tells the host the whole app, in order, if and only if the registry
      accepts every function, each can be described, and no exception is on record. */
  lemma MetadataReportsLoadableApp(st: I.State, fs: seq<AppFunction>, implicit: Implicit)
    requires fs != []
    ensures I.Step(st, I.Metadata(false, I.Functions(IndexedAll(fs, implicit)))).1 ==
            I.MetadataSuccess(false, seq(|fs|, i requires 0 <= i < |fs| => fs[i].id))
            <==> st.exception.None? && forall i :: 0 <= i < |fs| ==>
                 Registers(fs[i], implicit) && fs[i].describing.None?
  {
    var all := IndexedAll(fs, implicit);
    I.MetadataReportsWholeApp(st, all);
    assert seq(|all|, i requires 0 <= i < |all| => all[i].id) == seq(|fs|, i requires 0 <= i < |fs| => fs[i].id);
    assert (forall i :: 0 <= i < |all| ==> all[i].registering.None? && all[i].describing.None?) <==>
           (forall i :: 0 <= i < |fs| ==> Registers(fs[i], implicit) && fs[i].describing.None?) by {
      forall i | 0 <= i < |fs|
        ensures all[i].registering.None? && all[i].describing.None? <==>
                Registers(fs[i], implicit) && fs[i].describing.None?
      {
      }
    }
  }
}
