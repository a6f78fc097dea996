/** Sweeping sys.modules for the modules found under a path. The names are visited in any order; inspecting
    a namespace package reads the path of its parent, which the same sweep may have removed. */
module ModuleCache {

  /** What sys.modules holds under a name: something that is no module, a module with its __path__ entries
      and __file__, which may be a namespace package, or a module whose inspection raises. */
  datatype Module = NotAModule | Module(paths: set<string>, namespace: bool) | Uninspectable

  type Modules = map<string, Module>

  const WORKER_PACKAGE := "azure_functions_worker"

  /** The name before the last dot. */
  function Parent(n: string): (r: string)
    ensures |r| < |n| || r == n == ""
  {
    if n == "" then ""
    else if n[|n| - 1] == '.' then n[..|n| - 1]
    else Parent(n[..|n| - 1])
  }

  /** The package whose path inspecting n needs, if any: that of a nested namespace package. */
  function Needs(ms: Modules, n: string): string {
    if n in ms && ms[n].Module? && ms[n].namespace then Parent(n) else ""
  }

  /** Inspecting the module succeeds: it and all the packages this needs are there. */
  predicate Readable(ms: Modules, n: string)
    decreases |n|
  {
    && n in ms && ms[n].Module?
    && (Needs(ms, n) != "" ==> Readable(ms, Needs(ms, n)))
  }

  /** A name that is not built in and not the worker's, of a module some path of which starts with p. */
  predicate Droppable(ms: Modules, n: string, p: string, builtins: set<string>) {
    && n in ms && n !in builtins && !(WORKER_PACKAGE <= n)
    && ms[n].Module? && exists q :: q in ms[n].paths && p <= q
  }

  function Candidates(ms: Modules, builtins: set<string>): set<string> {
    set n | n in ms && n !in builtins && !(WORKER_PACKAGE <= n)
  }

  function Visit(ms: Modules, n: string, p: string): Modules {
    if Readable(ms, n) && (exists q :: q in ms[n].paths && p <= q) then ms - {n} else ms
  }

  function Sweep(ms: Modules, order: seq<string>, p: string): Modules {
    if order == [] then ms else Sweep(Visit(ms, order[0], p), order[1..], p)
  }

  ghost predicate IsOrder(order: seq<string>, names: set<string>) {
    && (forall n :: n in order <==> n in names)
    && forall i, j :: 0 <= i < j < |order| ==> order[i] != order[j]
  }

  predicate Within(after: Modules, before: Modules) {
    forall n :: n in after ==> n in before && after[n] == before[n]
  }

  /** What a sweep is for. */
  function WithoutDroppable(ms: Modules, p: string, builtins: set<string>): Modules {
    map n | n in ms && !Droppable(ms, n, p, builtins) :: ms[n]
  }

  // ----- One sweep -----

  lemma {:induction false} ReadableWithin(after: Modules, before: Modules, n: string)
    requires Within(after, before) && Readable(after, n)
    ensures Readable(before, n)
    decreases |n|
  {
    if Needs(after, n) != "" {
      ReadableWithin(after, before, Needs(after, n));
    }
  }

  lemma {:induction false} SweepWithin(ms: Modules, order: seq<string>, p: string)
    ensures Within(Sweep(ms, order, p), ms)
  {
    if order != [] {
      SweepWithin(Visit(ms, order[0], p), order[1..], p);
    }
  }

  lemma DroppableWithin(after: Modules, before: Modules, n: string, p: string, builtins: set<string>)
    requires Within(after, before) && n in after
    ensures Droppable(after, n, p, builtins) <==> Droppable(before, n, p, builtins)
  {
  }

  /** Whatever the order: modules that may not be dropped stay, and one that may be dropped survives only if
      a package its inspection needs is missing afterwards. */
  lemma {:induction false} SweepKeeps(ms: Modules, order: seq<string>, p: string, builtins: set<string>)
    requires forall n :: n in order ==> n !in builtins && !(WORKER_PACKAGE <= n)
    ensures var after := Sweep(ms, order, p);
            && Within(after, ms)
            && (forall n :: n in ms && !Droppable(ms, n, p, builtins) ==> n in after)
            && (forall n :: n in order && n in after && Droppable(ms, n, p, builtins) ==> !Readable(after, n))
  {
    SweepWithin(ms, order, p);
    var after := Sweep(ms, order, p);
    forall n | n in ms && !Droppable(ms, n, p, builtins) ensures n in after {
      KeptBySweep(ms, order, p, builtins, n);
    }
    forall n | n in order && n in after && Droppable(ms, n, p, builtins) ensures !Readable(after, n) {
      SurvivesSweep(ms, order, p, builtins, n);
    }
  }

  lemma {:induction false} KeptBySweep(ms: Modules, order: seq<string>, p: string, builtins: set<string>, n: string)
    requires forall m :: m in order ==> m !in builtins && !(WORKER_PACKAGE <= m)
    requires n in ms && !Droppable(ms, n, p, builtins)
    ensures n in Sweep(ms, order, p)
  {
    if order != [] {
      var mid := Visit(ms, order[0], p);
      assert order[0] in order && n in mid;
      DroppableWithin(mid, ms, n, p, builtins);
      KeptBySweep(mid, order[1..], p, builtins, n);
    }
  }

  lemma {:induction false} SurvivesSweep(ms: Modules, order: seq<string>, p: string, builtins: set<string>, n: string)
    requires n in order && n in Sweep(ms, order, p) && Droppable(ms, n, p, builtins)
    ensures !Readable(Sweep(ms, order, p), n)
  {
    var mid := Visit(ms, order[0], p);
    SweepWithin(mid, order[1..], p);
    if n == order[0] {
      if Readable(Sweep(ms, order, p), n) { ReadableWithin(Sweep(ms, order, p), ms, n); }
    } else {
      DroppableWithin(mid, ms, n, p, builtins);
      assert n in order[1..];
      SurvivesSweep(mid, order[1..], p, builtins, n);
    }
  }

  /** No package that inspecting n needs, directly or not, is missing or may itself be dropped. */
  predicate Steady(ms: Modules, n: string, p: string, builtins: set<string>)
    decreases |n|
  {
    var q := Needs(ms, n);
    q != "" ==> q in ms && ms[q].Module? && !Droppable(ms, q, p, builtins) && Steady(ms, q, p, builtins)
  }

  lemma {:induction false} SteadyStaysReadable(ms: Modules, mid: Modules, n: string, p: string, builtins: set<string>)
    requires Within(mid, ms) && n in mid && ms[n].Module? && Steady(ms, n, p, builtins)
    requires forall m :: m in ms && !Droppable(ms, m, p, builtins) ==> m in mid
    ensures Readable(mid, n)
    decreases |n|
  {
    if Needs(ms, n) != "" {
      SteadyStaysReadable(ms, mid, Needs(ms, n), p, builtins);
    }
  }

  /** Otherwise it cannot be inspected now, or some inspectable package that may be dropped is needed. */
  lemma {:induction false} Unsteady(ms: Modules, n: string, p: string, builtins: set<string>) returns (a: string)
    requires Readable(ms, n) && !Steady(ms, n, p, builtins)
    ensures a != n && Droppable(ms, a, p, builtins) && Readable(ms, a)
    ensures forall mid :: Within(mid, ms) && a !in mid ==> !Readable(mid, n)
    ensures |a| < |n|
    decreases |n|
  {
    var q := Needs(ms, n);
    if Droppable(ms, q, p, builtins) {
      a := q;
    } else {
      a := Unsteady(ms, q, p, builtins);
    }
  }

  lemma OrderOf(names: set<string>) returns (order: seq<string>)
    ensures IsOrder(order, names)
  {
    if names == {} {
      order := [];
    } else {
      var n :| n in names;
      var rest := OrderOf(names - {n});
      order := [n] + rest;
    }
  }

  lemma {:induction false} UnreadableStays(ms: Modules, order: seq<string>, p: string, n: string)
    requires n in ms && !Readable(ms, n)
    ensures n in Sweep(ms, order, p) && !Readable(Sweep(ms, order, p), n)
  {
    if order != [] {
      var mid := Visit(ms, order[0], p);
      if Readable(mid, n) { ReadableWithin(mid, ms, n); }
      UnreadableStays(mid, order[1..], p, n);
    }
  }

  predicate NoneStale(ms: Modules, p: string, builtins: set<string>) {
    forall n :: n in ms && Droppable(ms, n, p, builtins) ==> Steady(ms, n, p, builtins)
  }

  /** Some order leaves a droppable module behind. */
  lemma StaleOrder(ms: Modules, p: string, builtins: set<string>) returns (order: seq<string>, n: string)
    requires !NoneStale(ms, p, builtins)
    ensures IsOrder(order, Candidates(ms, builtins)) && Droppable(ms, n, p, builtins)
    ensures n in Sweep(ms, order, p) && !Readable(Sweep(ms, order, p), n)
  {
    n :| n in ms && Droppable(ms, n, p, builtins) && !Steady(ms, n, p, builtins);
    if Readable(ms, n) {
      var a := Unsteady(ms, n, p, builtins);
      var rest := OrderOf(Candidates(ms, builtins) - {a});
      order := [a] + rest;
      var mid := Visit(ms, a, p);
      assert mid == ms - {a} && order[1..] == rest;
      UnreadableStays(mid, rest, p, n);
    } else {
      order := OrderOf(Candidates(ms, builtins));
      UnreadableStays(ms, order, p, n);
    }
  }

  lemma {:induction false} SweepSnoc(ms: Modules, order: seq<string>, n: string, p: string)
    ensures Sweep(ms, order + [n], p) == Visit(Sweep(ms, order, p), n, p)
  {
    if order == [] {
      assert [n][1..] == [];
    } else {
      assert (order + [n])[1..] == order[1..] + [n];
      SweepSnoc(Visit(ms, order[0], p), order[1..], n, p);
    }
  }

  lemma SteadySweep(ms: Modules, order: seq<string>, p: string, builtins: set<string>)
    requires NoneStale(ms, p, builtins) && IsOrder(order, Candidates(ms, builtins))
    ensures Sweep(ms, order, p) == WithoutDroppable(ms, p, builtins)
  {
    var after := Sweep(ms, order, p);
    SweepKeeps(ms, order, p, builtins);
    forall n ensures n in after <==> n in WithoutDroppable(ms, p, builtins) {
      if n in after && Droppable(ms, n, p, builtins) {
        SteadyStaysReadable(ms, after, n, p, builtins);
      }
    }
  }

  /** A sweep removes exactly what it is for, in every order, if and only if no module to be dropped is a
      nested namespace package one of whose parents is missing or is to be dropped too. */
  lemma SweepExactIff(ms: Modules, p: string, builtins: set<string>)
    ensures (forall order :: IsOrder(order, Candidates(ms, builtins)) ==>
               Sweep(ms, order, p) == WithoutDroppable(ms, p, builtins))
            <==> NoneStale(ms, p, builtins)
  {
    if NoneStale(ms, p, builtins) {
      forall order | IsOrder(order, Candidates(ms, builtins))
        ensures Sweep(ms, order, p) == WithoutDroppable(ms, p, builtins)
      {
        SteadySweep(ms, order, p, builtins);
      }
    } else {
      var order, n := StaleOrder(ms, p, builtins);
      assert n !in WithoutDroppable(ms, p, builtins);
    }
  }

  /** Two orders for a namespace package and one nested in it, both under the path. */
  lemma OrderMatters()
    ensures var ms := map["g" := Module({"/w/g"}, true), "g.c" := Module({"/w/g/c"}, true)];
            && Sweep(ms, ["g.c", "g"], "/w") == map[]
            && Sweep(ms, ["g", "g.c"], "/w") == map["g.c" := Module({"/w/g/c"}, true)]
  {
    var ms := map["g" := Module({"/w/g"}, true), "g.c" := Module({"/w/g/c"}, true)];
    Parents();
    assert "/w" <= "/w/g" && "/w" <= "/w/g/c";
    assert Readable(ms, "g") && Readable(ms, "g.c");
    assert Visit(ms, "g.c", "/w") == map["g" := Module({"/w/g"}, true)];
    assert Visit(ms, "g", "/w") == map["g.c" := Module({"/w/g/c"}, true)];
    assert ["g.c", "g"][1..] == ["g"] && ["g", "g.c"][1..] == ["g.c"];
    assert Visit(map["g" := Module({"/w/g"}, true)], "g", "/w") == map[];
  }

  lemma Parents()
    ensures Parent("g") == "" && Parent("g.c") == "g"
  {
    assert "g"[..0] == "" && "g.c"[..2] == "g." && "g."[..1] == "g";
  }

  /** What every sweep does to one module, in any order: it stays if it is built in, belongs to the worker, is
      no module, or has no path that starts with p; it goes if none of this holds and it is not a nested
      namespace package or something else that cannot be inspected. */
  lemma SweepMeaning(ms: Modules, order: seq<string>, p: string, builtins: set<string>, n: string)
    requires n in ms && IsOrder(order, Candidates(ms, builtins))
    ensures var stays := || n in builtins || "azure_functions_worker" <= n || !ms[n].Module?
                         || forall q :: q in ms[n].paths ==> !(p <= q);
            var after := Sweep(ms, order, p);
            && (stays ==> n in after && after[n] == ms[n])
            && (!stays && (!ms[n].namespace || Parent(n) == "") ==> n !in after)
  {
    SweepKeeps(ms, order, p, builtins);
  }

  /** The parent of a dotted name is what precedes its last dot; an undotted name has none. */
  lemma {:induction false} ParentMeaning(front: string, last: string)
    requires '.' !in last
    ensures Parent(front + "." + last) == front && Parent(last) == ""
  {
    if last == "" {
      assert (front + "." + last)[..|front|] == front;
    } else {
      var all, init := front + "." + last, last[..|last| - 1];
      assert all[..|all| - 1] == front + "." + init && all[|all| - 1] == last[|last| - 1];
      assert last[|last| - 1] != '.';
      ParentMeaning(front, init);
    }
  }

  // ----- Sweeps one after the other -----

  function Sweeps(ms: Modules, ps: seq<string>, orders: seq<seq<string>>): Modules
    requires |orders| == |ps|
    decreases |ps|
  {
    if ps == [] then ms else Sweeps(Sweep(ms, orders[0], ps[0]), ps[1..], orders[1..])
  }

  /** Each sweep visits the names it finds. */
  ghost predicate AreOrders(ms: Modules, ps: seq<string>, orders: seq<seq<string>>, builtins: set<string>)
    requires |orders| == |ps|
    decreases |ps|
  {
    ps == [] ||
    (&& IsOrder(orders[0], Candidates(ms, builtins))
     && AreOrders(Sweep(ms, orders[0], ps[0]), ps[1..], orders[1..], builtins))
  }

  lemma {:induction false} SweepsSnoc(ms: Modules, ps: seq<string>, orders: seq<seq<string>>, p: string,
                                      order: seq<string>, builtins: set<string>)
    requires |orders| == |ps| && AreOrders(ms, ps, orders, builtins)
    requires IsOrder(order, Candidates(Sweeps(ms, ps, orders), builtins))
    ensures AreOrders(ms, ps + [p], orders + [order], builtins)
    ensures Sweeps(ms, ps + [p], orders + [order]) == Sweep(Sweeps(ms, ps, orders), order, p)
    decreases |ps|
  {
    if ps == [] {
      assert [p][1..] == [] && [order][1..] == [];
    } else {
      assert (ps + [p])[1..] == ps[1..] + [p] && (orders + [order])[1..] == orders[1..] + [order];
      SweepsSnoc(Sweep(ms, orders[0], ps[0]), ps[1..], orders[1..], p, order, builtins);
    }
  }

  predicate DroppableBy(ms: Modules, n: string, ps: seq<string>, builtins: set<string>) {
    exists i :: 0 <= i < |ps| && Droppable(ms, n, ps[i], builtins)
  }

  function WithoutAll(ms: Modules, ps: seq<string>, builtins: set<string>): Modules {
    map n | n in ms && !DroppableBy(ms, n, ps, builtins) :: ms[n]
  }

  lemma DroppableSplit(ms: Modules, after: Modules, n: string, ps: seq<string>, builtins: set<string>)
    requires ps != [] && Within(after, ms) && n in after
    ensures DroppableBy(ms, n, ps, builtins) <==>
            Droppable(ms, n, ps[0], builtins) || DroppableBy(after, n, ps[1..], builtins)
  {
    assert forall i :: 0 < i < |ps| ==> ps[i] == ps[1..][i - 1];
    assert forall p :: Droppable(ms, n, p, builtins) <==> Droppable(after, n, p, builtins);
  }

  lemma {:induction false} UnreadableStaysAll(ms: Modules, ps: seq<string>, orders: seq<seq<string>>, n: string)
    requires |orders| == |ps| && n in ms && !Readable(ms, n)
    ensures n in Sweeps(ms, ps, orders) && !Readable(Sweeps(ms, ps, orders), n)
    decreases |ps|
  {
    if ps != [] {
      UnreadableStays(ms, orders[0], ps[0], n);
      UnreadableStaysAll(Sweep(ms, orders[0], ps[0]), ps[1..], orders[1..], n);
    }
  }

  /** The same guarantee over any number of sweeps: modules that none of them may drop stay, and one that
      some of them may drop survives only if a package its inspection needs is missing afterwards. */
  lemma {:induction false} SweepsKeep(ms: Modules, ps: seq<string>, orders: seq<seq<string>>, builtins: set<string>,
                                      n: string)
    requires |orders| == |ps| && AreOrders(ms, ps, orders, builtins) && n in ms
    ensures var after := Sweeps(ms, ps, orders);
            && (n in after ==> after[n] == ms[n])
            && (!DroppableBy(ms, n, ps, builtins) ==> n in after)
            && (DroppableBy(ms, n, ps, builtins) && n in after ==> !Readable(after, n))
    decreases |ps|
  {
    if ps != [] {
      var mid := Sweep(ms, orders[0], ps[0]);
      SweepKeeps(ms, orders[0], ps[0], builtins);
      SweepsWithin(mid, ps[1..], orders[1..]);
      if n in mid {
        DroppableSplit(ms, mid, n, ps, builtins);
        SweepsKeep(mid, ps[1..], orders[1..], builtins, n);
        if Droppable(ms, n, ps[0], builtins) { UnreadableStaysAll(mid, ps[1..], orders[1..], n); }
      }
    }
  }

  lemma {:induction false} SweepsWithin(ms: Modules, ps: seq<string>, orders: seq<seq<string>>)
    requires |orders| == |ps|
    ensures Within(Sweeps(ms, ps, orders), ms)
    decreases |ps|
  {
    if ps != [] {
      SweepWithin(ms, orders[0], ps[0]);
      SweepsWithin(Sweep(ms, orders[0], ps[0]), ps[1..], orders[1..]);
    }
  }

  /** No sweep can leave a stale module behind. */
  predicate NeverStale(ms: Modules, ps: seq<string>, builtins: set<string>)
    decreases |ps|
  {
    ps == [] || (NoneStale(ms, ps[0], builtins) && NeverStale(WithoutDroppable(ms, ps[0], builtins), ps[1..], builtins))
  }

  lemma {:induction false} WithoutAllSplit(ms: Modules, ps: seq<string>, builtins: set<string>)
    requires ps != []
    ensures WithoutAll(ms, ps, builtins) == WithoutAll(WithoutDroppable(ms, ps[0], builtins), ps[1..], builtins)
  {
    var after := WithoutDroppable(ms, ps[0], builtins);
    forall n | n in ms
      ensures n in WithoutAll(ms, ps, builtins) <==> n in WithoutAll(after, ps[1..], builtins)
    {
      if n in after { DroppableSplit(ms, after, n, ps, builtins); }
    }
  }

  lemma {:induction false} AnyOrders(ms: Modules, ps: seq<string>, builtins: set<string>)
    returns (orders: seq<seq<string>>)
    ensures |orders| == |ps| && AreOrders(ms, ps, orders, builtins)
    decreases |ps|
  {
    if ps == [] {
      orders := [];
    } else {
      var order := OrderOf(Candidates(ms, builtins));
      var rest := AnyOrders(Sweep(ms, order, ps[0]), ps[1..], builtins);
      orders := [order] + rest;
      assert orders[1..] == rest;
    }
  }

  lemma {:induction false} SteadySweeps(ms: Modules, ps: seq<string>, orders: seq<seq<string>>, builtins: set<string>)
    requires |orders| == |ps| && AreOrders(ms, ps, orders, builtins) && NeverStale(ms, ps, builtins)
    ensures Sweeps(ms, ps, orders) == WithoutAll(ms, ps, builtins)
    decreases |ps|
  {
    if ps == [] {
      assert WithoutAll(ms, [], builtins) == ms;
    } else {
      SteadySweep(ms, orders[0], ps[0], builtins);
      SteadySweeps(WithoutDroppable(ms, ps[0], builtins), ps[1..], orders[1..], builtins);
      WithoutAllSplit(ms, ps, builtins);
    }
  }

  lemma {:induction false} StaleOrders(ms: Modules, ps: seq<string>, builtins: set<string>)
    returns (orders: seq<seq<string>>)
    requires !NeverStale(ms, ps, builtins)
    ensures |orders| == |ps| && AreOrders(ms, ps, orders, builtins)
    ensures Sweeps(ms, ps, orders) != WithoutAll(ms, ps, builtins)
    decreases |ps|
  {
    if NoneStale(ms, ps[0], builtins) {
      var order := OrderOf(Candidates(ms, builtins));
      SteadySweep(ms, order, ps[0], builtins);
      var rest := StaleOrders(WithoutDroppable(ms, ps[0], builtins), ps[1..], builtins);
      WithoutAllSplit(ms, ps, builtins);
      orders := [order] + rest;
      assert orders[1..] == rest;
    } else {
      var order, n := StaleOrder(ms, ps[0], builtins);
      var rest := AnyOrders(Sweep(ms, order, ps[0]), ps[1..], builtins);
      orders := [order] + rest;
      assert orders[1..] == rest;
      UnreadableStaysAll(Sweep(ms, order, ps[0]), ps[1..], rest, n);
      assert n in Sweeps(ms, ps, orders) && n !in WithoutAll(ms, ps, builtins);
    }
  }

  /** A series of sweeps removes exactly what it is for, in every order, if and only if no sweep of it meets
      a module to be dropped whose inspection needs a package that is missing or to be dropped too. */
  lemma SweepsExactIff(ms: Modules, ps: seq<string>, builtins: set<string>)
    ensures (forall orders :: |orders| == |ps| && AreOrders(ms, ps, orders, builtins) ==>
               Sweeps(ms, ps, orders) == WithoutAll(ms, ps, builtins))
            <==> NeverStale(ms, ps, builtins)
  {
    if NeverStale(ms, ps, builtins) {
      forall orders | |orders| == |ps| && AreOrders(ms, ps, orders, builtins)
        ensures Sweeps(ms, ps, orders) == WithoutAll(ms, ps, builtins)
      {
        SteadySweeps(ms, ps, orders, builtins);
      }
    } else {
      var orders := StaleOrders(ms, ps, builtins);
    }
  }
}
