/** The dispatcher's answer to a request to close shared memory maps. */
module CloseRequest {
  import opened Outcomes
  import opened FileSystem
  import opened SharedMemorySpec
  import M = SharedMemoryManager

  type FaultsAt = nat -> Faults

  /** Frees the i-th and later names; `results` holds the answers so far. */
  function CloseFrom(st: Shm, names: seq<string>, cacheEnabled: bool,
                     faults: FaultsAt, i: nat, results: map<string, bool>)
    : (Shm, map<string, bool>)
    requires i <= |names|
    decreases |names| - i
  {
    if i == |names| then (st, results)
    else
      var (next, r) := Free(st, names[i], !cacheEnabled, faults(i));
      CloseFrom(next, names, cacheEnabled, faults, i + 1, if r.Returned? then results[names[i] := r.value] else results)
  }

  function InitialResults(names: seq<string>): map<string, bool> {
    map n | n in names :: false
  }

  method CloseSharedMemoryResources(mgr: M.SharedMemoryManager, names: seq<string>, cacheEnabled: bool,
                                    faults: FaultsAt)
    returns (results: map<string, bool>)
    requires mgr.Valid()
    modifies mgr`live, mgr.accessor.disk`files, (set n | n in mgr.live :: mgr.live[n].memMap)`closed
    ensures mgr.Valid()
    ensures (mgr.State(), results) == CloseFrom(old(mgr.State()), names, cacheEnabled, faults, 0, InitialResults(names))
  {
    results := InitialResults(names);
    var i := 0;
    while i < |names|
      invariant 0 <= i <= |names|
      invariant mgr.Valid()
      invariant forall n :: n in mgr.live ==> n in old(mgr.live) && mgr.live[n] == old(mgr.live[n])
      invariant CloseFrom(old(mgr.State()), names, cacheEnabled, faults, 0, InitialResults(names))
             == CloseFrom(mgr.State(), names, cacheEnabled, faults, i, results)
    {
      var r := mgr.FreeMemMap(names[i], !cacheEnabled, faults(i));
      if r.Returned? {
        results := results[names[i] := r.value];
      }
      i := i + 1;
    }
  }

  /** Disposing of a tracked name succeeds when its file is kept, or is found, opened and removed. */
  predicate Disposable(st: Shm, name: string, cacheEnabled: bool, faults: Faults) {
    cacheEnabled || (Search(st.files.Keys, st.dirs, name, faults.unopenable).Some? && faults.removable)
  }

  predicate ListedOnce(names: seq<string>, i: nat, k: nat)
    requires i <= k < |names|
  {
    forall j :: i <= j < |names| && names[j] == names[k] ==> j == k
  }

  lemma FreeEffect(st: Shm, name: string, cacheEnabled: bool, faults: Faults)
    requires "" !in st.tracked
    ensures var (after, r) := Free(st, name, !cacheEnabled, faults);
            && after.tracked == st.tracked - {name} && after.dirs == st.dirs
            && (cacheEnabled ==> after.files == st.files)
            && r == Returned(name in st.tracked && Disposable(st, name, cacheEnabled, faults))
            && forall p: Path :: p.name != name ==> (p in after.files <==> p in st.files)
  {
  }

  lemma {:induction false} CloseFromEffect(st: Shm, names: seq<string>, cacheEnabled: bool,
                                           faults: FaultsAt, i: nat, results: map<string, bool>)
    requires "" !in st.tracked
    requires i <= |names| && forall n :: n in names ==> n in results
    ensures var (after, answers) := CloseFrom(st, names, cacheEnabled, faults, i, results);
            && after.tracked == st.tracked - (set n | n in names[i..])
            && (cacheEnabled ==> after.files == st.files)
            && answers.Keys == results.Keys
            && (forall n :: n in results && n !in names[i..] ==> answers[n] == results[n])
            && (forall k :: i <= k < |names| ==>
                  (answers[names[k]] <==> && names[k] in st.tracked && ListedOnce(names, i, k)
                                          && Disposable(st, names[k], cacheEnabled, faults(k))))
    decreases |names| - i
  {
    if i < |names| {
      var name := names[i];
      var (next, r) := Free(st, name, !cacheEnabled, faults(i));
      FreeEffect(st, name, cacheEnabled, faults(i));
      var results' := results[name := r.value];
      CloseFromEffect(next, names, cacheEnabled, faults, i + 1, results');
      assert names[i..] == [name] + names[i + 1..];
      var (after, answers) := CloseFrom(st, names, cacheEnabled, faults, i, results);
      forall k | i <= k < |names|
        ensures answers[names[k]] <==> && names[k] in st.tracked && ListedOnce(names, i, k)
                                       && Disposable(st, names[k], cacheEnabled, faults(k))
      {
        AnswerAt(st, next, names, cacheEnabled, faults, i, k);
        if k == i && name in names[i + 1..] {
          var j :| i + 1 <= j < |names| && names[j] == name;
          AnswerAt(st, next, names, cacheEnabled, faults, i, j);
        }
      }
    }
  }

  /** Freeing one name does not change what a later listing of another would find. */
  lemma AnswerAt(st: Shm, next: Shm, names: seq<string>, cacheEnabled: bool, faults: FaultsAt, i: nat, k: nat)
    requires i <= k < |names|
    requires next.tracked == st.tracked - {names[i]} && next.dirs == st.dirs
    requires forall p: Path :: p.name != names[i] ==> (p in next.files <==> p in st.files)
    ensures k > i && names[k] != names[i] ==>
              && (names[k] in next.tracked <==> names[k] in st.tracked)
              && (ListedOnce(names, i, k) <==> ListedOnce(names, i + 1, k))
              && (Disposable(next, names[k], cacheEnabled, faults(k))
                  <==> Disposable(st, names[k], cacheEnabled, faults(k)))
    ensures k > i && names[k] == names[i] ==> names[k] !in next.tracked && !ListedOnce(names, i, k)
    ensures k == i && names[i] !in names[i + 1..] ==> ListedOnce(names, i, k)
  {
    if k > i && names[k] != names[i] {
      SearchFrame(next.files.Keys, st.files.Keys, st.dirs, names[k], faults(k).unopenable);
    }
    assert forall j :: i < j < |names| ==> names[j] == names[i + 1..][j - i - 1];
  }

  /** The k-th listing removes this file: it is the first of a tracked name, and the file is where the search
      for that name ends. */
  ghost predicate Removes(st: Shm, names: seq<string>, cacheEnabled: bool, faults: FaultsAt, i: nat, k: int, p: Path) {
    && i <= k < |names| && !cacheEnabled && names[k] == p.name && names[k] in st.tracked
    && (forall j :: i <= j < k ==> names[j] != names[k])
    && faults(k).removable && Search(st.files.Keys, st.dirs, names[k], faults(k).unopenable) == Some(p.dir)
  }

  lemma {:induction false} CloseFiles(st: Shm, names: seq<string>, cacheEnabled: bool, faults: FaultsAt, i: nat,
                                      results: map<string, bool>, p: Path)
    requires "" !in st.tracked && i <= |names|
    ensures var after := CloseFrom(st, names, cacheEnabled, faults, i, results).0;
            && (p in after.files <==>
                  p in st.files && !exists k :: Removes(st, names, cacheEnabled, faults, i, k, p))
            && (p in after.files ==> after.files[p] == st.files[p])
    decreases |names| - i
  {
    if i < |names| {
      var later := i + 1;
      var (next, r) := Free(st, names[i], !cacheEnabled, faults(i));
      FreeEffect(st, names[i], cacheEnabled, faults(i));
      CloseFiles(next, names, cacheEnabled, faults, later,
                 if r.Returned? then results[names[i] := r.value] else results, p);
      assert p in next.files <==> p in st.files && !Removes(st, names, cacheEnabled, faults, i, i, p);
      forall k | i < k < |names|
        ensures Removes(st, names, cacheEnabled, faults, i, k, p)
                <==> Removes(next, names, cacheEnabled, faults, later, k, p)
      {
        if names[k] == p.name && names[i] != p.name {
          SearchFrame(next.files.Keys, st.files.Keys, st.dirs, names[k], faults(k).unopenable);
        }
      }
      if k :| k != i && Removes(st, names, cacheEnabled, faults, i, k, p) {
        assert Removes(next, names, cacheEnabled, faults, later, k, p);
      }
      if k :| Removes(next, names, cacheEnabled, faults, later, k, p) {
        assert Removes(st, names, cacheEnabled, faults, i, k, p);
      }
    }
  }

  /** The answer names exactly the requested maps; a map is reported closed if and only if it was
      tracked, is listed once and its disposal succeeds; no listed map stays tracked; and while the
      host caches the data no file is removed. Otherwise exactly the files are removed that the first
      listings of tracked names find and can remove. */
  lemma CloseConservation(st: Shm, names: seq<string>, cacheEnabled: bool, faults: FaultsAt)
    requires "" !in st.tracked
    ensures var (after, answers) := CloseFrom(st, names, cacheEnabled, faults, 0, InitialResults(names));
            && answers.Keys == (set n | n in names)
            && after.tracked == st.tracked - (set n | n in names)
            && (cacheEnabled ==> after.files == st.files)
            && (forall k :: 0 <= k < |names| ==>
                  (answers[names[k]] <==> && names[k] in st.tracked && ListedOnce(names, 0, k)
                                          && Disposable(st, names[k], cacheEnabled, faults(k))))
            && (forall p :: p in after.files <==>
                  p in st.files && !exists k :: Removes(st, names, cacheEnabled, faults, 0, k, p))
            && (forall p :: p in after.files ==> after.files[p] == st.files[p])
  {
    CloseFromEffect(st, names, cacheEnabled, faults, 0, InitialResults(names));
    assert names[0..] == names;
    var after := CloseFrom(st, names, cacheEnabled, faults, 0, InitialResults(names)).0;
    forall p
      ensures p in after.files <==> p in st.files && !exists k :: Removes(st, names, cacheEnabled, faults, 0, k, p)
      ensures p in after.files ==> after.files[p] == st.files[p]
    {
      CloseFiles(st, names, cacheEnabled, faults, 0, InitialResults(names), p);
    }
  }
}
