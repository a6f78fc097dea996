/** What the shared memory manager promises over whole runs: it behaves as a map from names to bytes. */
module SharedMemoryRuns {
  import opened Outcomes
  import opened Utf8
  import opened LengthHeader
  import opened FileSystem
  import opened SharedMemorySpec
  import opened SharedMemoryProofs

  datatype Op =
    | DoPut(content: seq<Byte>, env: PutEnv)
    | DoGet(name: string, offset: int, count: int, unopenable: set<string>)
    | DoFree(name: string, deleteFile: bool, faults: Faults)

  function Step(st: Shm, op: Op): Shm {
    match op
    case DoPut(content, env) => Put(st, content, env).0
    case DoGet(_, _, _, _) => st
    case DoFree(name, deleteFile, faults) => Free(st, name, deleteFile, faults).0
  }

  function Run(st: Shm, ops: seq<Op>): Shm
    decreases |ops|
  {
    if ops == [] then st else Run(Step(st, ops[0]), ops[1..])
  }

  /** The simple form of the manager: a map from names to the bytes put under them. A name enters
      with a successful put that leaves one file, and leaves when its file is deleted. */
  type Store = map<string, seq<Byte>>

  ghost function StoreStep(st: Shm, a: Store, op: Op): Store {
    match op
    case DoPut(content, env) =>
      var r := Put(st, content, env).1;
      if r.Returned? && r.value.Some? && SingleFile(st.dirs, env.attempts) then a[env.name := content] else a
    case DoGet(_, _, _, _) => a
    case DoFree(name, deleteFile, faults) =>
      if deleteFile && Free(st, name, deleteFile, faults).1 == Returned(true) then a - {name} else a
  }

  ghost function StoreRun(st: Shm, a: Store, ops: seq<Op>): Store
    decreases |ops|
  {
    if ops == [] then a else StoreRun(Step(st, ops[0]), StoreStep(st, a, ops[0]), ops[1..])
  }

  ghost predicate Simulates(st: Shm, a: Store) {
    forall n :: n in a ==> Holds(st, n, a[n])
  }

  lemma FreeFrame(st: Shm, name: string, deleteFile: bool, faults: Faults, p: Path)
    requires p.name != name || Free(st, name, deleteFile, faults).1 != Returned(true) || !deleteFile
    ensures var (after, _) := Free(st, name, deleteFile, faults);
            after.dirs == st.dirs && (p in after.files <==> p in st.files)
            && (p in st.files ==> after.files[p] == st.files[p])
  {
  }

  /** The files of one name, and where they are looked for, are the same. */
  ghost predicate SameName(st: Shm, after: Shm, name: string) {
    && after.dirs == st.dirs
    && forall p: Path :: p.name == name ==>
         (p in after.files <==> p in st.files) && (p in st.files ==> after.files[p] == st.files[p])
  }

  /** An operation that does not delete the name's file leaves an existing name as it was: a put under it
      is refused. */
  lemma StepKeepsName(st: Shm, op: Op, name: string)
    requires Exists(st.files.Keys, st.dirs, name)
    requires op.DoFree? && op.name == name && op.deleteFile ==>
               Free(st, op.name, op.deleteFile, op.faults).1 != Returned(true)
    ensures SameName(st, Step(st, op), name)
  {
    forall p: Path | p.name == name
      ensures p in Step(st, op).files <==> p in st.files
      ensures p in st.files ==> Step(st, op).files[p] == st.files[p]
    {
      match op {
        case DoPut(c, env) => if env.name != name { PutFrame(st, c, env, p); }
        case DoGet(_, _, _, _) =>
        case DoFree(n, del, faults) => FreeFrame(st, n, del, faults, p);
      }
    }
  }

  /** What a name holds stays under every operation that does not delete its file. */
  lemma HoldsFrame(st: Shm, op: Op, name: string, content: seq<Byte>)
    requires Holds(st, name, content)
    requires op.DoFree? && op.name == name && op.deleteFile ==>
               Free(st, op.name, op.deleteFile, op.faults).1 != Returned(true)
    ensures Holds(Step(st, op), name, content)
  {
    var d :| HoldsIn(st, name, content, d);
    var k :| 0 <= k < |st.dirs| && st.dirs[k] == d;
    assert Path(st.dirs[k], name) in st.files.Keys;
    StepKeepsName(st, op, name);
    assert HoldsIn(Step(st, op), name, content, d);
  }

  lemma StepSimulates(st: Shm, a: Store, op: Op)
    requires Simulates(st, a)
    ensures Simulates(Step(st, op), StoreStep(st, a, op))
  {
    var b := StoreStep(st, a, op);
    forall n | n in b ensures Holds(Step(st, op), n, b[n]) {
      if op.DoPut? && n == op.env.name && b != a {
        PutHolds(st, op.content, op.env);
      } else {
        HoldsFrame(st, op, n, a[n]);
      }
    }
  }

  /** The byte-level manager simulates the store over every sequence of puts, gets and frees. */
  lemma {:induction false} RunSimulates(st: Shm, a: Store, ops: seq<Op>)
    requires Simulates(st, a)
    ensures Simulates(Run(st, ops), StoreRun(st, a, ops))
    decreases |ops|
  {
    if ops != [] {
      StepSimulates(st, a, ops[0]);
      RunSimulates(Step(st, ops[0]), StoreStep(st, a, ops[0]), ops[1..]);
    }
  }

  /** After any run, reading the first `count` bytes of a name in the store gives exactly those bytes. */
  lemma ReadAfterRun(st: Shm, ops: seq<Op>, name: string, count: nat, unopenable: set<string>)
    requires name in StoreRun(st, map[], ops)
    requires count <= |StoreRun(st, map[], ops)[name]|
    requires forall d :: d in st.dirs ==> d !in unopenable
    ensures Get(Run(st, ops), name, 0, count, unopenable) == Returned(Some(StoreRun(st, map[], ops)[name][..count]))
  {
    RunSimulates(st, map[], ops);
    var content := StoreRun(st, map[], ops)[name];
    var d :| HoldsIn(Run(st, ops), name, content, d);
    RunKeepsDirs(st, ops);
    GetFromHeld(Run(st, ops), name, content, d, 0, count, unopenable);
  }

  lemma {:induction false} RunKeepsDirs(st: Shm, ops: seq<Op>)
    ensures Run(st, ops).dirs == st.dirs
    decreases |ops|
  {
    if ops != [] {
      RunKeepsDirs(Step(st, ops[0]), ops[1..]);
    }
  }

  /** Dropping the reference only: the name is untracked, and its content still reads back. */
  lemma FreeWithoutDeletion(st: Shm, name: string, content: seq<Byte>, faults: Faults)
    requires Holds(st, name, content) && name in st.tracked
    ensures var (after, r) := Free(st, name, false, faults);
            r == Returned(true) && after.tracked == st.tracked - {name} && Holds(after, name, content)
  {
    HoldsFrame(st, DoFree(name, false, faults), name, content);
  }

  // ----- The same without asking the manager for outcomes -----

  predicate Deletes(op: Op, name: string) { op.DoFree? && op.deleteFile && op.name == name }

  lemma GetFrame(st: Shm, after: Shm, name: string, offset: int, count: int, unopenable: set<string>)
    requires SameName(st, after, name)
    ensures Get(after, name, offset, count, unopenable) == Get(st, name, offset, count, unopenable)
  {
    SearchFrame(st.files.Keys, after.files.Keys, st.dirs, name, unopenable);
    SearchFinds(st.files.Keys, st.dirs, name, unopenable);
  }

  lemma ExistsFrame(st: Shm, after: Shm, name: string)
    requires SameName(st, after, name) && Exists(st.files.Keys, st.dirs, name)
    ensures Exists(after.files.Keys, after.dirs, name)
  {
    var i :| 0 <= i < |st.dirs| && Path(st.dirs[i], name) in st.files.Keys;
    assert Path(after.dirs[i], name) in after.files.Keys;
  }

  /** Until its own file is asked to be deleted, every read of an existing name gives what it gave before,
      whatever else happens. */
  lemma {:induction false} ReadsStay(st: Shm, ops: seq<Op>, name: string, offset: int, count: int,
                                     unopenable: set<string>)
    requires Exists(st.files.Keys, st.dirs, name)
    requires forall i :: 0 <= i < |ops| ==> !Deletes(ops[i], name)
    ensures Get(Run(st, ops), name, offset, count, unopenable) == Get(st, name, offset, count, unopenable)
    decreases |ops|
  {
    if ops != [] {
      var next := Step(st, ops[0]);
      StepKeepsName(st, ops[0], name);
      GetFrame(st, next, name, offset, count, unopenable);
      ExistsFrame(st, next, name);
      ReadsStay(next, ops[1..], name, offset, count, unopenable);
    }
  }

  /** A put under a new name that some directory takes, then any operations but a deletion of that name:
      a read gives the first bytes of the content if the search reaches the file the put chose, nothing
      if no file of the name opens, and an error if a left-over file is in front or the count is too big. */
  lemma PutThenRead(st: Shm, content: seq<Byte>, env: PutEnv, ops: seq<Op>, count: nat, unopenable: set<string>)
    requires env.name != "" && !Exists(st.files.Keys, st.dirs, env.name) && |content| < TWO_64
    requires Chosen(st.dirs, env.attempts, 0).Some?
    requires forall i :: 0 <= i < |ops| ==> !Deletes(ops[i], env.name)
    ensures Get(Run(Put(st, content, env).0, ops), env.name, 0, count, unopenable) ==
            match Reached(st.dirs, env, unopenable)
            case None => Returned(None)
            case Some(d) =>
              if Some(d) == Chosen(st.dirs, env.attempts, 0) && count <= |content|
              then Returned(Some(content[..count]))
              else Raised(ValueError)
  {
    var j := ChosenAt(st.dirs, env.attempts, 0);
    PutOutcome(st, content, env);
    var after := Put(st, content, env).0;
    var d := PutFiles(st, content, env);
    var k :| 0 <= k < |st.dirs| && st.dirs[k] == d;
    assert Path(after.dirs[k], env.name) in after.files.Keys;
    GetAfterPut(st, content, env, count, unopenable);
    ReadsStay(after, ops, env.name, 0, count, unopenable);
  }

  /** So content put into one file reads back, for every count that fits, whatever happens to other names. */
  lemma SinglePutReadsBack(st: Shm, content: seq<Byte>, env: PutEnv, ops: seq<Op>, count: nat, unopenable: set<string>)
    requires PutSucceeds(st, content, env) && SingleFile(st.dirs, env.attempts) && count <= |content|
    requires forall i :: 0 <= i < |ops| ==> !Deletes(ops[i], env.name)
    ensures Chosen(st.dirs, env.attempts, 0).Some?
    ensures Get(Run(Put(st, content, env).0, ops), env.name, 0, count, unopenable) ==
            if Chosen(st.dirs, env.attempts, 0).value in unopenable then Returned(None)
            else Returned(Some(content[..count]))
  {
    var d := PutFiles(st, content, env);
    PutOutcome(st, content, env);
    ReachedSingle(st.dirs, env, unopenable);
    PutThenRead(st, content, env, ops, count, unopenable);
  }

  // ----- One directory for each name -----

  /** A put keeps names unique exactly when it leaves files in at most one directory. */
  lemma PutKeepsUniqueNames(st: Shm, content: seq<Byte>, env: PutEnv)
    requires UniqueNames(st) && env.name != "" && !Exists(st.files.Keys, st.dirs, env.name) && |content| < TWO_64
    ensures UniqueNames(Put(st, content, env).0) <==> SingleFile(st.dirs, env.attempts)
  {
    var after := Put(st, content, env).0;
    CreateFileEffect(st.files, st.dirs, env.name, HEADER_BYTES + |content|, env.attempts, 0);
    forall e | e in st.dirs
      ensures Path(e, env.name) in after.files <==> exists j :: Touched(st.dirs, env.attempts, 0, j) && st.dirs[j] == e
    {
      var k :| 0 <= k < |st.dirs| && st.dirs[k] == e;
      assert Path(st.dirs[k], env.name) !in st.files.Keys;
    }
    if SingleFile(st.dirs, env.attempts) {
      forall name, d, e | d in st.dirs && e in st.dirs && Path(d, name) in after.files && Path(e, name) in after.files
        ensures d == e
      {
        if name != env.name {
          PutFrame(st, content, env, Path(d, name));
          PutFrame(st, content, env, Path(e, name));
        }
      }
    }
    if UniqueNames(after) {
      forall i, j | Touched(st.dirs, env.attempts, 0, i) && Touched(st.dirs, env.attempts, 0, j)
        ensures st.dirs[i] == st.dirs[j]
      {
        assert Path(st.dirs[i], env.name) in after.files && Path(st.dirs[j], env.name) in after.files;
      }
    }
  }

  /** An accepted put leaves files in one directory only. */
  ghost predicate LeavesOneFile(st: Shm, op: Op) {
    op.DoPut? && op.env.name != "" && !Exists(st.files.Keys, st.dirs, op.env.name) ==>
      SingleFile(st.dirs, op.env.attempts)
  }

  lemma StepKeepsUniqueNames(st: Shm, op: Op)
    requires UniqueNames(st) && (op.DoPut? ==> |op.content| < TWO_64)
    ensures UniqueNames(Step(st, op)) <==> LeavesOneFile(st, op)
  {
    if op.DoPut? && op.env.name != "" && !Exists(st.files.Keys, st.dirs, op.env.name) {
      PutKeepsUniqueNames(st, op.content, op.env);
    }
  }

  ghost predicate AlwaysUnique(st: Shm, ops: seq<Op>)
    decreases |ops|
  {
    UniqueNames(st) && (ops != [] ==> AlwaysUnique(Step(st, ops[0]), ops[1..]))
  }

  ghost predicate NeverLeavesTwo(st: Shm, ops: seq<Op>)
    decreases |ops|
  {
    ops != [] ==> LeavesOneFile(st, ops[0]) && NeverLeavesTwo(Step(st, ops[0]), ops[1..])
  }

  /** Every name is in at most one directory at every moment of a run if and only if no accepted put of
      the run leaves files in two. */
  lemma {:induction false} RunKeepsUniqueNames(st: Shm, ops: seq<Op>)
    requires UniqueNames(st)
    requires forall i :: 0 <= i < |ops| && ops[i].DoPut? ==> |ops[i].content| < TWO_64
    ensures AlwaysUnique(st, ops) <==> NeverLeavesTwo(st, ops)
    decreases |ops|
  {
    if ops != [] {
      StepKeepsUniqueNames(st, ops[0]);
      if LeavesOneFile(st, ops[0]) {
        RunKeepsUniqueNames(Step(st, ops[0]), ops[1..]);
      }
    }
  }
}
