/** Switching sys.path and the module caches between the worker's and the customer's packages. */
module DependencyManager {
  import opened ModuleCache

  /** sys.path, sys.path_importer_cache, and the paths sys.modules was swept for so far. What a sweep removes
      depends on the order of its visits, which is up to the interpreter. */
  datatype Env = Env(path: seq<string>, importerCache: set<string>, swept: seq<string>)

  /** The directories found at start-up, and the built-in module names. */
  datatype Config = Config(cxDeps: string, cxWorkingDir: string, workerDeps: string, builtins: set<string>)

  function Without(s: seq<string>, p: string): seq<string> {
    if s == [] then []
    else if s[0] == p then Without(s[1..], p)
    else [s[0]] + Without(s[1..], p)
  }

  function ClearCaches(env: Env, p: string): Env {
    if p == "" then env else env.(importerCache := env.importerCache - {p}, swept := env.swept + [p])
  }

  function AddToSysPath(env: Env, p: string, first: bool): Env {
    if p == "" || p in env.path then env
    else ClearCaches(env.(path := if first then [p] + env.path else env.path + [p]), p)
  }

  function RemoveFromSysPath(env: Env, p: string): Env {
    ClearCaches(if p == "" then env else env.(path := Without(env.path, p)), p)
  }

  function UseWorkerDependencies(env: Env, cfg: Config): Env {
    AddToSysPath(RemoveFromSysPath(RemoveFromSysPath(env, cfg.cxDeps), cfg.cxWorkingDir), cfg.workerDeps, true)
  }

  /** The directory to search last: the one given (made absolute), the one found at start-up, or the
      script root of the environment. */
  function WorkingDirectory(cfg: Config, given: string, scriptRoot: string): string {
    if given != "" then given else if cfg.cxWorkingDir != "" then cfg.cxWorkingDir else scriptRoot
  }

  function PrioritizeCustomerDependencies(env: Env, cfg: Config, given: string, scriptRoot: string): Env {
    var e1 := RemoveFromSysPath(env, cfg.workerDeps);
    var e2 := AddToSysPath(e1, cfg.cxDeps, true);
    var e3 := AddToSysPath(e2, cfg.workerDeps, false);
    AddToSysPath(e3, WorkingDirectory(cfg, given, scriptRoot), false)
  }

  class DependencyManager {
    const cfg: Config
    var sysPath: seq<string>
    var importerCache: set<string>
    var sysModules: Modules

    /** What was cached at first, the sweeps since, and the order of the visits of each. */
    ghost const start: Modules
    ghost var swept: seq<string>
    ghost var orders: seq<seq<string>>

    ghost predicate Valid()
      reads this
    {
      && |orders| == |swept| && AreOrders(start, swept, orders, cfg.builtins)
      && sysModules == Sweeps(start, swept, orders)
    }

    ghost function View(): Env
      reads this
    {
      Env(sysPath, importerCache, swept)
    }

    constructor (cfg: Config, sysPath: seq<string>, importerCache: set<string>, sysModules: Modules)
      ensures Valid() && this.cfg == cfg && start == sysModules
      ensures View() == Env(sysPath, importerCache, [])
    {
      this.cfg, this.sysPath, this.importerCache, this.sysModules := cfg, sysPath, importerCache, sysModules;
      start, swept, orders := sysModules, [], [];
    }

    /** Visits the names in any order, as the iteration over a set does. */
    method RemoveModuleCache(p: string) returns (ghost order: seq<string>)
      modifies this`sysModules
      ensures p == "" ==> sysModules == old(sysModules)
      ensures p != "" ==> IsOrder(order, Candidates(old(sysModules), cfg.builtins))
      ensures p != "" ==> sysModules == Sweep(old(sysModules), order, p)
    {
      order := [];
      if p == "" { return; }
      var todo := set n | n in sysModules.Keys && n !in cfg.builtins && !(WORKER_PACKAGE <= n);
      assert todo == Candidates(sysModules, cfg.builtins);
      while todo != {}
        invariant IsOrder(order, Candidates(old(sysModules), cfg.builtins) - todo)
        invariant todo <= Candidates(old(sysModules), cfg.builtins)
        invariant sysModules == Sweep(old(sysModules), order, p)
        decreases todo
      {
        var n :| n in todo;
        todo := todo - {n};
        SweepSnoc(old(sysModules), order, n, p);
        order := order + [n];
        // A module that cannot be inspected, as things are now, is kept.
        if Readable(sysModules, n) && (exists q :: q in sysModules[n].paths && p <= q) {
          sysModules := sysModules - {n};
        }
      }
    }

    method ClearPathImporterCacheAndModules(p: string)
      requires Valid()
      modifies this`importerCache, this`sysModules, this`swept, this`orders
      ensures Valid() && View() == ClearCaches(old(View()), p)
    {
      if p != "" && p in importerCache {
        importerCache := importerCache - {p};
      }
      if p != "" {
        ghost var order := RemoveModuleCache(p);
        SweepsSnoc(start, swept, orders, p, order, cfg.builtins);
        swept, orders := swept + [p], orders + [order];
      }
    }

    method AddPath(p: string, first: bool)
      requires Valid()
      modifies this
      ensures Valid() && View() == AddToSysPath(old(View()), p, first)
    {
      if p != "" && p !in sysPath {
        sysPath := if first then [p] + sysPath else sysPath + [p];
        ClearPathImporterCacheAndModules(p);
      }
    }

    method RemovePath(p: string)
      requires Valid()
      modifies this
      ensures Valid() && View() == RemoveFromSysPath(old(View()), p)
    {
      WithoutAbsent(sysPath, p);
      if p != "" && p in sysPath {
        sysPath := Without(sysPath, p);
      }
      ClearPathImporterCacheAndModules(p);
    }

    method UseWorker(isolate: bool)
      requires Valid()
      modifies this
      ensures Valid()
      ensures View() == if isolate then UseWorkerDependencies(old(View()), cfg) else old(View())
      ensures var rest := Removed(Removed(old(sysPath), cfg.cxDeps), cfg.cxWorkingDir);
              isolate ==>
                sysPath == (if cfg.workerDeps == "" || cfg.workerDeps in rest then [] else [cfg.workerDeps]) + rest
    {
      WorkerModeShape(View(), cfg);
      if isolate {
        RemovePath(cfg.cxDeps);
        RemovePath(cfg.cxWorkingDir);
        AddPath(cfg.workerDeps, true);
      }
    }

    method PrioritizeCustomer(isolate: bool, given: string, scriptRoot: string)
      requires Valid()
      modifies this
      ensures Valid()
      ensures View() == if isolate then PrioritizeCustomerDependencies(old(View()), cfg, given, scriptRoot)
                        else old(View())
    {
      if isolate {
        RemovePath(cfg.workerDeps);
        AddPath(cfg.cxDeps, true);
        AddPath(cfg.workerDeps, false);
        AddPath(WorkingDirectory(cfg, given, scriptRoot), false);
      }
    }
  }

  // ----- What the two switches guarantee -----

  lemma {:induction false} WithoutAbsent(s: seq<string>, p: string)
    ensures p !in Without(s, p)
    ensures forall q :: q != p ==> (q in Without(s, p) <==> q in s)
    ensures p !in s ==> Without(s, p) == s
  {
    if s != [] {
      WithoutAbsent(s[1..], p);
      assert s == [s[0]] + s[1..];
      assert forall q :: q in s <==> q == s[0] || q in s[1..];
    }
  }

  /** One path, added or removed: an addition is ignored if the path is empty or there already, and otherwise
      puts it at the end asked for; a removal takes out all its occurrences. Either clears the importer of
      the path and sweeps for its modules, a removal even if the path was not there. */
  lemma OnePath(env: Env, p: string, first: bool)
    ensures p == "" ==> AddToSysPath(env, p, first) == env && RemoveFromSysPath(env, p) == env
    ensures p in env.path ==> AddToSysPath(env, p, first) == env
    ensures p != "" && p !in env.path ==>
              AddToSysPath(env, p, first) ==
              Env(if first then [p] + env.path else env.path + [p], env.importerCache - {p}, env.swept + [p])
    ensures p != "" ==>
              var after := RemoveFromSysPath(env, p);
              && p !in after.path && after.path == Without(env.path, p)
              && (p !in env.path ==> after.path == env.path)
              && after.importerCache == env.importerCache - {p} && after.swept == env.swept + [p]
  {
    WithoutAbsent(env.path, p);
  }

  /** Removing a path goes entry by entry, so what is left keeps its order. */
  lemma {:induction false} WithoutConcat(s: seq<string>, t: seq<string>, p: string)
    ensures Without(s + t, p) == Without(s, p) + Without(t, p)
  {
    if s == [] {
      assert s + t == t;
    } else {
      assert (s + t)[1..] == s[1..] + t;
      WithoutConcat(s[1..], t, p);
    }
  }

  lemma WithoutOne(q: string, p: string)
    ensures Without([q], p) == if q == p then [] else [q]
  {
    assert [q][1..] == [];
  }

  /** The worker's packages and the working directory are there, and the three directories differ. The
      customer's packages may be missing, as on Linux Consumption. */
  predicate Distinct(w: string, c: string, d: string) {
    w != "" && d != "" && w != c && w != d && c != d
  }

  function Removed(s: seq<string>, p: string): seq<string> { if p == "" then s else Without(s, p) }

  predicate Before(s: seq<string>, a: string, b: string) {
    exists i, j :: 0 <= i < j < |s| && s[i] == a && s[j] == b
  }

  /** The entry customer mode puts in front, and the one it puts last. */
  function NewFirst(env: Env, cfg: Config): seq<string> {
    if cfg.cxDeps != "" && cfg.cxDeps !in env.path then [cfg.cxDeps] else []
  }

  function NewLast(env: Env, cfg: Config, d: string): seq<string> {
    if d != "" && d != cfg.workerDeps && d != cfg.cxDeps && d !in env.path then [d] else []
  }

  /** The shape of sys.path after worker mode, from any start: what was there without the customer's packages
      and the working directory, behind the worker's packages unless they were there already. Worker packages
      that were not on sys.path come before every other entry. */
  lemma WorkerModeShape(env: Env, cfg: Config)
    ensures var w := cfg.workerDeps;
            var rest := Removed(Removed(env.path, cfg.cxDeps), cfg.cxWorkingDir);
            var after := UseWorkerDependencies(env, cfg).path;
            && after == (if w == "" || w in rest then [] else [w]) + rest
            && (w != "" ==> w in after)
            && (w != "" && w !in env.path ==> after[0] == w && after[1..] == rest)
            && (cfg.cxDeps != "" && cfg.cxDeps != w ==> cfg.cxDeps !in after)
            && (cfg.cxWorkingDir != "" && cfg.cxWorkingDir != w ==> cfg.cxWorkingDir !in after)
  {
    WithoutAbsent(env.path, cfg.cxDeps);
    WithoutAbsent(Removed(env.path, cfg.cxDeps), cfg.cxWorkingDir);
  }

  /** The directory customer mode searches last: the one it is given, without one the one found at start-up,
      and without that the script root. */
  predicate IsWorkingDirectory(d: string, cfg: Config, given: string, scriptRoot: string) {
    && (given != "" ==> d == given)
    && (given == "" && cfg.cxWorkingDir != "" ==> d == cfg.cxWorkingDir)
    && (given == "" && cfg.cxWorkingDir == "" ==> d == scriptRoot)
  }

  /** The shape of sys.path after customer mode, from any start. */
  lemma PrioritizeShape(env: Env, cfg: Config, given: string, scriptRoot: string)
    requires cfg.workerDeps != "" && cfg.workerDeps != cfg.cxDeps
    ensures PrioritizeCustomerDependencies(env, cfg, given, scriptRoot).path ==
            NewFirst(env, cfg) + Without(env.path, cfg.workerDeps) + [cfg.workerDeps]
            + NewLast(env, cfg, WorkingDirectory(cfg, given, scriptRoot))
    ensures IsWorkingDirectory(WorkingDirectory(cfg, given, scriptRoot), cfg, given, scriptRoot)
  {
    WithoutAbsent(env.path, cfg.workerDeps);
  }

  /** Worker mode and then customer mode bring any sys.path to one normal form, and keep everything else
      in its order: the customer's packages, the rest, the worker's packages, the working directory. */
  lemma NormalForm(env: Env, cfg: Config, scriptRoot: string)
    requires Distinct(cfg.workerDeps, cfg.cxDeps, cfg.cxWorkingDir)
    ensures PrioritizeCustomerDependencies(UseWorkerDependencies(env, cfg), cfg, "", scriptRoot).path ==
            (if cfg.cxDeps == "" then [] else [cfg.cxDeps])
            + Without(Without(Removed(env.path, cfg.cxDeps), cfg.cxWorkingDir), cfg.workerDeps)
            + [cfg.workerDeps, cfg.cxWorkingDir]
  {
    var c, d := cfg.cxDeps, cfg.cxWorkingDir;
    var mid := UseWorkerDependencies(env, cfg);
    WorkerModePath(env, cfg);
    PrioritizeShape(mid, cfg, "", scriptRoot);
    assert NewFirst(mid, cfg) == (if c == "" then [] else [c]) && NewLast(mid, cfg, d) == [d];
  }

  lemma WorkerModePath(env: Env, cfg: Config)
    requires Distinct(cfg.workerDeps, cfg.cxDeps, cfg.cxWorkingDir)
    ensures var mid := UseWorkerDependencies(env, cfg).path;
            && (cfg.cxDeps != "" ==> cfg.cxDeps !in mid) && cfg.cxWorkingDir !in mid && cfg.workerDeps in mid
            && Without(mid, cfg.workerDeps) ==
               Without(Without(Removed(env.path, cfg.cxDeps), cfg.cxWorkingDir), cfg.workerDeps)
  {
    WithoutAbsent(env.path, cfg.cxDeps);
    WithoutAbsent(Removed(env.path, cfg.cxDeps), cfg.cxWorkingDir);
  }

  lemma OnceInTheMiddle(front: seq<string>, w: string, last: seq<string>)
    requires w !in front && w !in last
    ensures multiset(front + [w] + last)[w] == 1
  {
    assert multiset(front)[w] == 0 && multiset(last)[w] == 0;
  }

  lemma {:induction false} WithoutTheMiddle(front: seq<string>, w: string, last: seq<string>)
    requires w !in front && w !in last
    ensures Without(front + [w] + last, w) == front + last
  {
    var s := front + [w] + last;
    if front == [] {
      assert s[1..] == last;
      WithoutAbsent(last, w);
    } else {
      assert s[1..] == front[1..] + [w] + last;
      WithoutTheMiddle(front[1..], w, last);
      assert [front[0]] + (front[1..] + last) == front + last;
    }
  }

  /** Customer mode leaves the worker's packages exactly once; apart from them it only adds new entries
      around the old ones, which keep their order. */
  lemma PrioritizeKeepsOrder(env: Env, cfg: Config, given: string, scriptRoot: string)
    requires cfg.workerDeps != "" && cfg.workerDeps != cfg.cxDeps
    ensures var after := PrioritizeCustomerDependencies(env, cfg, given, scriptRoot).path;
            && multiset(after)[cfg.workerDeps] == 1
            && Without(after, cfg.workerDeps) ==
               NewFirst(env, cfg) + Without(env.path, cfg.workerDeps)
               + NewLast(env, cfg, WorkingDirectory(cfg, given, scriptRoot))
  {
    var front := NewFirst(env, cfg) + Without(env.path, cfg.workerDeps);
    var last := NewLast(env, cfg, WorkingDirectory(cfg, given, scriptRoot));
    PrioritizeShape(env, cfg, given, scriptRoot);
    WithoutAbsent(env.path, cfg.workerDeps);
    OnceInTheMiddle(front, cfg.workerDeps, last);
    WithoutTheMiddle(front, cfg.workerDeps, last);
  }

  /** The customer's packages, if there are any, are searched before the worker's. */
  lemma CustomerBeforeWorker(env: Env, cfg: Config, given: string, scriptRoot: string)
    requires cfg.workerDeps != "" && cfg.cxDeps != "" && cfg.workerDeps != cfg.cxDeps
    ensures Before(PrioritizeCustomerDependencies(env, cfg, given, scriptRoot).path, cfg.cxDeps, cfg.workerDeps)
  {
    var after := PrioritizeCustomerDependencies(env, cfg, given, scriptRoot).path;
    var front := NewFirst(env, cfg) + Without(env.path, cfg.workerDeps);
    PrioritizeShape(env, cfg, given, scriptRoot);
    WithoutAbsent(env.path, cfg.workerDeps);
    assert cfg.cxDeps in front;
    var i :| 0 <= i < |front| && front[i] == cfg.cxDeps;
    assert after[i] == cfg.cxDeps && after[|front|] == cfg.workerDeps;
  }

  /** The documented search order puts the working directory behind the worker's packages. Customer mode
      reaches it if and only if the working directory was not on sys.path before the call, whether or not
      there are customer packages. */
  lemma WorkingDirectoryLastIff(env: Env, cfg: Config, given: string, scriptRoot: string)
    requires cfg.workerDeps != "" && cfg.workerDeps != cfg.cxDeps
    requires var d := WorkingDirectory(cfg, given, scriptRoot); d != "" && d != cfg.workerDeps && d != cfg.cxDeps
    ensures var d := WorkingDirectory(cfg, given, scriptRoot);
            && (Before(PrioritizeCustomerDependencies(env, cfg, given, scriptRoot).path, cfg.workerDeps, d)
                <==> d !in env.path)
            && d in PrioritizeCustomerDependencies(env, cfg, given, scriptRoot).path
  {
    var w, d := cfg.workerDeps, WorkingDirectory(cfg, given, scriptRoot);
    var after := PrioritizeCustomerDependencies(env, cfg, given, scriptRoot).path;
    var front := NewFirst(env, cfg) + Without(env.path, w);
    PrioritizeShape(env, cfg, given, scriptRoot);
    WithoutAbsent(env.path, w);
    assert w !in front;
    if d !in env.path {
      assert after == front + [w, d];
      assert after[|front|] == w && after[|front| + 1] == d;
    } else {
      assert after == front + [w];
      assert d in front;
      assert forall i :: 0 <= i < |after| && after[i] == w ==> i == |front|;
    }
  }

  /** What an environment reload does to sys.path first: it appends the app directory as the host sent it. */
  function Appended(env: Env, directory: string): Env {
    if directory == "" then env else env.(path := env.path + [directory])
  }

  /** Customer mode then works with the absolute form of that directory. The reload misses the documented
      order exactly when that form is the directory itself or was on sys.path already; so it always does
      for an absolute path in normal form. */
  lemma ReloadMissesOrder(env: Env, cfg: Config, directory: string, absolute: string, scriptRoot: string)
    requires cfg.workerDeps != "" && cfg.workerDeps != cfg.cxDeps
    requires directory != "" && absolute != "" && absolute != cfg.workerDeps && absolute != cfg.cxDeps
    ensures Before(PrioritizeCustomerDependencies(Appended(env, directory), cfg, absolute, scriptRoot).path,
                   cfg.workerDeps, absolute)
            <==> absolute != directory && absolute !in env.path
  {
    WorkingDirectoryLastIff(Appended(env, directory), cfg, absolute, scriptRoot);
  }

  /** A second call with the same working directory misses it from any start: it moves the worker's
      packages behind the working directory. */
  lemma SecondCallSwaps(env: Env, cfg: Config, given: string, scriptRoot: string)
    requires cfg.workerDeps != "" && cfg.workerDeps != cfg.cxDeps
    requires var d := WorkingDirectory(cfg, given, scriptRoot); d != "" && d != cfg.workerDeps && d != cfg.cxDeps
    ensures var once := PrioritizeCustomerDependencies(env, cfg, given, scriptRoot);
            !Before(PrioritizeCustomerDependencies(once, cfg, given, scriptRoot).path, cfg.workerDeps,
                    WorkingDirectory(cfg, given, scriptRoot))
  {
    WorkingDirectoryLastIff(env, cfg, given, scriptRoot);
    WorkingDirectoryLastIff(PrioritizeCustomerDependencies(env, cfg, given, scriptRoot), cfg, given, scriptRoot);
  }

  // ----- What the caches hold -----

  /** Between two moments: the importers of these paths are gone, and sys.modules was swept for these paths. */
  ghost predicate Cleared(env: Env, after: Env, ps: set<string>) {
    && after.importerCache == env.importerCache - ps
    && env.swept <= after.swept
    && forall p :: p in after.swept[|env.swept|..] <==> p in ps
  }

  lemma ClearMore(env: Env, mid: Env, path: seq<string>, ps: set<string>, q: string)
    requires Cleared(env, mid, ps) && q != ""
    ensures Cleared(env, ClearCaches(mid.(path := path), q), ps + {q})
  {
    var after := ClearCaches(mid.(path := path), q);
    assert after.swept[|env.swept|..] == mid.swept[|env.swept|..] + [q];
  }

  lemma RemoveClears(env: Env, mid: Env, ps: set<string>, q: string)
    requires Cleared(env, mid, ps)
    ensures Cleared(env, RemoveFromSysPath(mid, q), ps + ({q} - {""}))
  {
    if q == "" {
      assert ps + ({q} - {""}) == ps;
    } else {
      ClearMore(env, mid, Without(mid.path, q), ps, q);
      assert {q} - {""} == {q};
    }
  }

  /** Adding a path clears what was cached for it, unless it was on sys.path already. */
  lemma AddClears(env: Env, mid: Env, ps: set<string>, q: string, first: bool)
    requires Cleared(env, mid, ps)
    ensures Cleared(env, AddToSysPath(mid, q, first), if q == "" || q in mid.path then ps else ps + {q})
    ensures q == "" || q in ps ==> Cleared(env, AddToSysPath(mid, q, first), ps)
  {
    if q != "" {
      ClearMore(env, mid, if first then [q] + mid.path else mid.path + [q], ps, q);
      assert q in ps ==> ps + {q} == ps;
    }
  }

  lemma RemoveTwoClears(env: Env, c: string, d: string)
    ensures Cleared(env, RemoveFromSysPath(RemoveFromSysPath(env, c), d), {c, d} - {""})
  {
    RemoveClears(env, env, {}, c);
    RemoveClears(env, RemoveFromSysPath(env, c), {} + ({c} - {""}), d);
    assert {} + ({c} - {""}) + ({d} - {""}) == {c, d} - {""};
  }

  lemma WorkerModeClears(env: Env, cfg: Config) returns (ps: set<string>)
    ensures Cleared(env, UseWorkerDependencies(env, cfg), ps)
    ensures {cfg.cxDeps, cfg.cxWorkingDir} - {""} <= ps <= {cfg.cxDeps, cfg.cxWorkingDir, cfg.workerDeps} - {""}
  {
    var mid := RemoveFromSysPath(RemoveFromSysPath(env, cfg.cxDeps), cfg.cxWorkingDir);
    ps := {cfg.cxDeps, cfg.cxWorkingDir} - {""};
    RemoveTwoClears(env, cfg.cxDeps, cfg.cxWorkingDir);
    AddClears(env, mid, ps, cfg.workerDeps, true);
    if cfg.workerDeps != "" && cfg.workerDeps !in mid.path {
      ps := ps + {cfg.workerDeps};
    }
  }

  lemma CustomerModeClears(env: Env, mid: Env, ps: set<string>, cfg: Config, given: string, scriptRoot: string)
    requires Cleared(env, mid, ps)
    requires {cfg.cxDeps, WorkingDirectory(cfg, given, scriptRoot)} - {""} <= ps
    ensures Cleared(env, PrioritizeCustomerDependencies(mid, cfg, given, scriptRoot), ps + ({cfg.workerDeps} - {""}))
  {
    var all := ps + ({cfg.workerDeps} - {""});
    var e1 := RemoveFromSysPath(mid, cfg.workerDeps);
    var e2 := AddToSysPath(e1, cfg.cxDeps, true);
    var e3 := AddToSysPath(e2, cfg.workerDeps, false);
    RemoveClears(env, mid, ps, cfg.workerDeps);
    AddClears(env, e1, all, cfg.cxDeps, true);
    AddClears(env, e2, all, cfg.workerDeps, false);
    AddClears(env, e3, all, WorkingDirectory(cfg, given, scriptRoot), false);
  }

  /** The sweeps of worker mode followed by customer mode. */
  function SwitchSweeps(env: Env, cfg: Config, scriptRoot: string): seq<string> {
    PrioritizeCustomerDependencies(UseWorkerDependencies(env.(swept := []), cfg), cfg, "", scriptRoot).swept
  }

  /** Both switches together clear exactly the directories there are. */
  lemma SwitchesClear(env: Env, cfg: Config, scriptRoot: string)
    requires cfg.cxWorkingDir != ""
    ensures var dirs := {cfg.cxDeps, cfg.cxWorkingDir, cfg.workerDeps} - {""};
            && PrioritizeCustomerDependencies(UseWorkerDependencies(env, cfg), cfg, "", scriptRoot).importerCache
               == env.importerCache - dirs
            && forall p :: p in SwitchSweeps(env, cfg, scriptRoot) <==> p in dirs
  {
    var unswept := env.(swept := []);
    var ps := WorkerModeClears(unswept, cfg);
    CustomerModeClears(unswept, UseWorkerDependencies(unswept, cfg), ps, cfg, "", scriptRoot);
    assert ps + ({cfg.workerDeps} - {""}) == {cfg.cxDeps, cfg.cxWorkingDir, cfg.workerDeps} - {""};
    var sweeps := SwitchSweeps(env, cfg, scriptRoot);
    assert sweeps[0..] == sweeps;
  }

  /** What both switches leave in sys.modules, whatever the order of the visits: every module that is not
      found under the three directories; and of those that are, only namespace packages some parent of
      which is gone. */
  lemma SwitchesPurge(env: Env, cfg: Config, scriptRoot: string, ms: Modules, orders: seq<seq<string>>, n: string)
    requires cfg.cxWorkingDir != "" && n in ms
    requires |orders| == |SwitchSweeps(env, cfg, scriptRoot)|
    requires AreOrders(ms, SwitchSweeps(env, cfg, scriptRoot), orders, cfg.builtins)
    ensures var after := Sweeps(ms, SwitchSweeps(env, cfg, scriptRoot), orders);
            var droppable := exists p :: p in {cfg.cxDeps, cfg.cxWorkingDir, cfg.workerDeps} - {""}
                                         && Droppable(ms, n, p, cfg.builtins);
            && (!droppable ==> n in after)
            && (droppable && n in after ==> !Readable(after, n))
            && (n in after ==> after[n] == ms[n])
  {
    var sweeps := SwitchSweeps(env, cfg, scriptRoot);
    SwitchesClear(env, cfg, scriptRoot);
    SweepsKeep(ms, sweeps, orders, cfg.builtins, n);
    if p :| p in {cfg.cxDeps, cfg.cxWorkingDir, cfg.workerDeps} - {""} && Droppable(ms, n, p, cfg.builtins) {
      var i :| 0 <= i < |sweeps| && sweeps[i] == p;
    }
  }

  /** Nothing at all of the three directories stays cached, in every order of the visits, if and only if no
      sweep meets a nested namespace package to be dropped one of whose parents is missing or is to be
      dropped by that sweep. */
  lemma SwitchesPurgeExactlyIff(env: Env, cfg: Config, scriptRoot: string, ms: Modules)
    ensures var sweeps := SwitchSweeps(env, cfg, scriptRoot);
            (forall orders :: |orders| == |sweeps| && AreOrders(ms, sweeps, orders, cfg.builtins) ==>
               Sweeps(ms, sweeps, orders) == WithoutAll(ms, sweeps, cfg.builtins))
            <==> NeverStale(ms, sweeps, cfg.builtins)
  {
    SweepsExactIff(ms, SwitchSweeps(env, cfg, scriptRoot), cfg.builtins);
  }
}
