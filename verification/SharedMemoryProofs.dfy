/** What one put, get or free of the shared memory manager does, whatever files a put leaves behind. */
module SharedMemoryProofs {
  import opened Outcomes
  import opened Utf8
  import opened LengthHeader
  import opened FileSystem
  import opened SharedMemoryMap
  import opened SharedMemorySpec

  /** The j-th directory is tried (counting from i) and its open succeeds. */
  ghost predicate Touched(dirs: seq<string>, attempts: Attempts, i: nat, j: int) {
    i <= j < |dirs| && !attempts(j).OpenFails? && forall k :: i <= k < j ==> !attempts(k).Succeeds?
  }

  /** Creating a map leaves files in one directory only. With distinct directories: no truncate
      fails before the attempt that succeeds. */
  ghost predicate SingleFile(dirs: seq<string>, attempts: Attempts) {
    forall i, j :: Touched(dirs, attempts, 0, i) && Touched(dirs, attempts, 0, j) ==> dirs[i] == dirs[j]
  }

  /** The name is in directory d and in no other. */
  ghost predicate OnlyIn(st: Shm, name: string, d: string) {
    && d in st.dirs && Path(d, name) in st.files
    && forall e :: e in st.dirs && Path(e, name) in st.files ==> e == d
  }

  ghost predicate IsBlock(b: seq<Byte>, content: seq<Byte>) {
    |content| < TWO_64 && (b == Block(content, Little) || b == Block(content, Big))
  }

  /** The name has one file: flag byte set, length header, and this content. */
  ghost predicate HoldsIn(st: Shm, name: string, content: seq<Byte>, d: string) {
    name != "" && OnlyIn(st, name, d) && IsBlock(st.files[Path(d, name)], content)
  }

  ghost predicate Holds(st: Shm, name: string, content: seq<Byte>) {
    exists d :: HoldsIn(st, name, content, d)
  }

  /** Every name is in at most one valid directory. */
  ghost predicate UniqueNames(st: Shm) {
    forall name, d, e :: d in st.dirs && e in st.dirs && Path(d, name) in st.files && Path(e, name) in st.files ==>
      d == e
  }

  /** The header of a written map: the flag is set, the content fills the rest, and the stored length
      reads back as the content's exactly when it fits a signed 64-bit integer and the host is
      little-endian, or writes a length that reads the same both ways. */
  lemma HeaderOfBlock(content: seq<Byte>, order: ByteOrder)
    requires |content| < TWO_64
    ensures var b := Block(content, order);
            && |b| == 9 + |content| && b[0] == 1 && b[9..] == content
            && (StoredLength(b) == Returned(|content|) <==>
                  && |content| < 0x8000_0000_0000_0000
                  && (order.Little?
                     || Reversed(LittleEndian(|content|, LENGTH_BYTES)) == LittleEndian(|content|, LENGTH_BYTES)))
  {
    assert Block(content, order)[FLAG_BYTES..HEADER_BYTES] == LengthToBytes(|content|, order).value;
    LengthRoundTrip(|content|, order);
  }

  lemma {:induction false} CreateFileEffect(files: Files, dirs: seq<string>, name: string, size: nat,
                                            attempts: Attempts, i: nat)
    requires i <= |dirs|
    ensures var (made, dir) := CreateFile(files, dirs, name, size, attempts, i);
            && (forall p :: p in files && p.name != name ==> p in made && made[p] == files[p])
            && (forall p :: p in made <==>
                  p in files || (p.name == name && exists j :: Touched(dirs, attempts, i, j) && dirs[j] == p.dir))
            && (dir.Some? ==> && Path(dir.value, name) in made && made[Path(dir.value, name)] == Zeros(size)
                              && exists j :: Touched(dirs, attempts, i, j) && dirs[j] == dir.value)
            && (forall p :: p in made && p.name == name && dir != Some(p.dir) ==>
                  made[p] == [] || (p in files && made[p] == files[p]))
    decreases |dirs| - i
  {
    if i < |dirs| {
      var path := Path(dirs[i], name);
      var next := if attempts(i).TruncateFails? then files[path := []] else files;
      var (made, dir) := CreateFile(files, dirs, name, size, attempts, i);
      if attempts(i).Succeeds? {
        assert Touched(dirs, attempts, i, i);
        assert forall j :: Touched(dirs, attempts, i, j) ==> j == i;
      } else {
        CreateFileEffect(next, dirs, name, size, attempts, i + 1);
        assert forall j :: Touched(dirs, attempts, i + 1, j) ==> Touched(dirs, attempts, i, j);
        assert forall j :: Touched(dirs, attempts, i, j) && j > i ==> Touched(dirs, attempts, i + 1, j);
        assert Touched(dirs, attempts, i, i) <==> attempts(i).TruncateFails?;
      }
    }
  }

  /** Where a creation puts its file, and nothing else about it: the first attempt that succeeds. */
  function Chosen(dirs: seq<string>, attempts: Attempts, i: nat): Option<string>
    requires i <= |dirs|
    decreases |dirs| - i
  {
    if i == |dirs| then None
    else if attempts(i).Succeeds? then Some(dirs[i])
    else Chosen(dirs, attempts, i + 1)
  }

  lemma {:induction false} CreateFileChooses(files: Files, dirs: seq<string>, name: string, size: nat,
                                             attempts: Attempts, i: nat)
    requires i <= |dirs|
    ensures CreateFile(files, dirs, name, size, attempts, i).1 == Chosen(dirs, attempts, i)
    decreases |dirs| - i
  {
    if i < |dirs| && !attempts(i).Succeeds? {
      var next := if attempts(i).TruncateFails? then files[Path(dirs[i], name) := []] else files;
      CreateFileChooses(next, dirs, name, size, attempts, i + 1);
    }
  }

  lemma {:induction false} ChosenAt(dirs: seq<string>, attempts: Attempts, i: nat) returns (j: nat)
    requires i <= |dirs| && Chosen(dirs, attempts, i).Some?
    ensures Touched(dirs, attempts, i, j) && attempts(j).Succeeds? && Some(dirs[j]) == Chosen(dirs, attempts, i)
    decreases |dirs| - i
  {
    j := i;
    if !attempts(i).Succeeds? {
      j := ChosenAt(dirs, attempts, i + 1);
    }
  }

  /** The files a creation leaves under a new name. */
  ghost function LeftPaths(dirs: seq<string>, env: PutEnv): set<Path> {
    set j | 0 <= j < |dirs| && Touched(dirs, env.attempts, 0, j) :: Path(dirs[j], env.name)
  }

  /** Where a later search for the name ends, when these directories cannot be opened: the first
      directory, in search order, in which the creation left a file that opens. */
  ghost function Reached(dirs: seq<string>, env: PutEnv, unopenable: set<string>): Option<string> {
    Search(LeftPaths(dirs, env), dirs, env.name, unopenable)
  }

  ghost predicate PutSucceeds(st: Shm, content: seq<Byte>, env: PutEnv) {
    Put(st, content, env).1.Returned? && Put(st, content, env).1.value.Some?
  }

  ghost predicate DistinctDirs(dirs: seq<string>) {
    forall i, j :: 0 <= i < j < |dirs| ==> dirs[i] != dirs[j]
  }

  lemma SearchOnly(st: Shm, name: string, d: string, unopenable: set<string>)
    requires OnlyIn(st, name, d)
    ensures Search(st.files.Keys, st.dirs, name, unopenable) == if d in unopenable then None else Some(d)
  {
    SearchFinds(st.files.Keys, st.dirs, name, unopenable);
  }

  /** Every read of a name whose search ends at a written file, for any offset and count: a prefix for the
      counts that fit, and for the others the very error or surprise the code produces. */
  lemma GetFound(st: Shm, name: string, content: seq<Byte>, d: string, offset: int, count: int,
                 unopenable: set<string>)
    requires name != "" && Path(d, name) in st.files && IsBlock(st.files[Path(d, name)], content)
    requires Search(st.files.Keys, st.dirs, name, unopenable) == Some(d)
    ensures Get(st, name, offset, count, unopenable) ==
            if offset != 0 then Returned(None)
            else if count + HEADER_BYTES < 0 then Raised(SharedMemoryException)
            else if count + HEADER_BYTES == 0 then Returned(Some(content))
            else if count < 0 then Raised(StructError)
            else if count <= |content| then Returned(Some(content[..count]))
            else Raised(ValueError)
  {
    var bytes := st.files[Path(d, name)];
    if count + HEADER_BYTES == 0 {
      assert bytes[..|bytes|] == bytes;
    } else if 0 <= count <= |content| {
      assert bytes[..HEADER_BYTES + count][HEADER_BYTES..] == bytes[HEADER_BYTES..][..count];
      assert bytes[..HEADER_BYTES + count][HEADER_BYTES..HEADER_BYTES + count] == bytes[HEADER_BYTES..][..count];
    }
  }

  /** The same for a held name, whether its directory opens or not. */
  lemma GetFromHeld(st: Shm, name: string, content: seq<Byte>, d: string, offset: int, count: int,
                    unopenable: set<string>)
    requires HoldsIn(st, name, content, d)
    ensures Get(st, name, offset, count, unopenable) ==
            if offset != 0 then Returned(None)
            else if count + HEADER_BYTES < 0 then Raised(SharedMemoryException)
            else if d in unopenable then Returned(None)
            else if count + HEADER_BYTES == 0 then Returned(Some(content))
            else if count < 0 then Raised(StructError)
            else if count <= |content| then Returned(Some(content[..count]))
            else Raised(ValueError)
  {
    SearchOnly(st, name, d, unopenable);
    if d !in unopenable {
      GetFound(st, name, content, d, offset, count, unopenable);
    }
  }

  /** A put reports success exactly when the name is new and some directory takes the file. */
  lemma PutOutcome(st: Shm, content: seq<Byte>, env: PutEnv)
    requires |content| < TWO_64
    ensures var r := Put(st, content, env).1;
            && (r.Raised? <==> env.name == "" || Exists(st.files.Keys, st.dirs, env.name))
            && (r.Returned? ==> (r.value.Some? <==> exists j :: 0 <= j < |st.dirs| && env.attempts(j).Succeeds?))
            && (r.Returned? && r.value.Some? ==> r.value.value == Metadata(env.name, |content|))
            && (r.Raised? ==> r.exc == SharedMemoryException && Put(st, content, env).0 == st)
            && (r == Returned(None) ==> Put(st, content, env).0.tracked == st.tracked)
  {
    if env.name != "" && !Exists(st.files.Keys, st.dirs, env.name) {
      CreateFileSome(st.files, st.dirs, env.name, HEADER_BYTES + |content|, env.attempts, 0);
    }
  }

  lemma {:induction false} CreateFileSome(files: Files, dirs: seq<string>, name: string, size: nat,
                                          attempts: Attempts, i: nat)
    requires i <= |dirs|
    ensures CreateFile(files, dirs, name, size, attempts, i).1.Some? <==>
            exists j :: i <= j < |dirs| && attempts(j).Succeeds?
    decreases |dirs| - i
  {
    if i < |dirs| && !attempts(i).Succeeds? {
      var next := if attempts(i).TruncateFails? then files[Path(dirs[i], name) := []] else files;
      CreateFileSome(next, dirs, name, size, attempts, i + 1);
    }
  }

  /** Where the file of a successful put is, and what else the put leaves behind under its name. */
  lemma PutFiles(st: Shm, content: seq<Byte>, env: PutEnv) returns (d: string)
    requires PutSucceeds(st, content, env)
    ensures var (after, _) := Put(st, content, env);
            && env.name != "" && |content| < TWO_64
            && Some(d) == Chosen(st.dirs, env.attempts, 0)
            && d in st.dirs && Path(d, env.name) in after.files
            && after.files[Path(d, env.name)] == Block(content, env.order)
            && (forall e :: e in st.dirs ==>
                  (Path(e, env.name) in after.files <==>
                     exists j :: Touched(st.dirs, env.attempts, 0, j) && st.dirs[j] == e))
            && (forall e :: e in st.dirs && e != d && Path(e, env.name) in after.files ==>
                  after.files[Path(e, env.name)] == [])
            && after.dirs == st.dirs && after.tracked == st.tracked + {env.name}
  {
    var size := HEADER_BYTES + |content|;
    CreateFileEffect(st.files, st.dirs, env.name, size, env.attempts, 0);
    CreateFileChooses(st.files, st.dirs, env.name, size, env.attempts, 0);
    d := Chosen(st.dirs, env.attempts, 0).value;
    forall e | e in st.dirs ensures Path(e, env.name) !in st.files {
      var k :| 0 <= k < |st.dirs| && st.dirs[k] == e;
      assert !(Path(st.dirs[k], env.name) in st.files.Keys);
    }
  }

  /** No operation on one name touches the files of another. */
  lemma PutFrame(st: Shm, content: seq<Byte>, env: PutEnv, p: Path)
    requires p.name != env.name
    ensures var (after, _) := Put(st, content, env);
            after.dirs == st.dirs && (p in after.files <==> p in st.files)
            && (p in st.files ==> after.files[p] == st.files[p])
  {
    CreateFileEffect(st.files, st.dirs, env.name, HEADER_BYTES + |content|, env.attempts, 0);
  }

  /** A successful put makes its name hold the content exactly when it left files in one directory. */
  lemma PutHolds(st: Shm, content: seq<Byte>, env: PutEnv)
    requires PutSucceeds(st, content, env)
    ensures Holds(Put(st, content, env).0, env.name, content) <==> SingleFile(st.dirs, env.attempts)
  {
    var after := Put(st, content, env).0;
    var d := PutFiles(st, content, env);
    if SingleFile(st.dirs, env.attempts) {
      assert HoldsIn(after, env.name, content, d);
    }
    if Holds(after, env.name, content) {
      var h :| HoldsIn(after, env.name, content, h);
      forall i, j | Touched(st.dirs, env.attempts, 0, i) && Touched(st.dirs, env.attempts, 0, j)
        ensures st.dirs[i] == st.dirs[j]
      {
        assert Path(st.dirs[i], env.name) in after.files && Path(st.dirs[j], env.name) in after.files;
      }
    }
  }

  // ----- Left-over files -----

  /** With one file, a search reaches it unless its directory cannot be opened. */
  lemma ReachedSingle(dirs: seq<string>, env: PutEnv, unopenable: set<string>)
    requires SingleFile(dirs, env.attempts) && Chosen(dirs, env.attempts, 0).Some?
    ensures Reached(dirs, env, unopenable) ==
            if Chosen(dirs, env.attempts, 0).value in unopenable then None else Chosen(dirs, env.attempts, 0)
  {
    var j := ChosenAt(dirs, env.attempts, 0);
    assert Path(dirs[j], env.name) in LeftPaths(dirs, env);
    SearchFinds(LeftPaths(dirs, env), dirs, env.name, unopenable);
  }

  /** With a left-over file in another, earlier directory, a search that may open every directory misses
      the file of the creation. */
  lemma ReachedLeftOver(dirs: seq<string>, env: PutEnv, unopenable: set<string>)
    requires DistinctDirs(dirs) && Chosen(dirs, env.attempts, 0).Some? && !SingleFile(dirs, env.attempts)
    requires forall d :: d in dirs ==> d !in unopenable
    ensures Reached(dirs, env, unopenable).Some?
    ensures Reached(dirs, env, unopenable) != Chosen(dirs, env.attempts, 0)
  {
    var c := ChosenAt(dirs, env.attempts, 0);
    var i, j :| Touched(dirs, env.attempts, 0, i) && Touched(dirs, env.attempts, 0, j) && dirs[i] != dirs[j];
    var k := FirstTouched(dirs, env.attempts, if i < j then i else j);
    assert k < c;
    assert Path(dirs[k], env.name) in LeftPaths(dirs, env);
    SearchAt(LeftPaths(dirs, env), dirs, env.name, unopenable, k);
  }

  lemma FirstTouched(dirs: seq<string>, attempts: Attempts, i: nat) returns (k: nat)
    requires Touched(dirs, attempts, 0, i)
    ensures k <= i && Touched(dirs, attempts, 0, k) && forall j :: 0 <= j < k ==> !Touched(dirs, attempts, 0, j)
    decreases i
  {
    k := i;
    if j :| 0 <= j < i && Touched(dirs, attempts, 0, j) {
      k := FirstTouched(dirs, attempts, j);
    }
  }

  lemma SearchAfterPut(st: Shm, content: seq<Byte>, env: PutEnv, unopenable: set<string>)
    requires PutSucceeds(st, content, env)
    ensures Search(Put(st, content, env).0.files.Keys, st.dirs, env.name, unopenable)
            == Reached(st.dirs, env, unopenable)
  {
    var d := PutFiles(st, content, env);
    SearchFrame(Put(st, content, env).0.files.Keys, LeftPaths(st.dirs, env), st.dirs, env.name, unopenable);
  }

  /** Every read right after a put, whatever files the put left and whatever cannot be opened: the
      content exactly when the search ends at the file the put chose. */
  lemma GetAfterPut(st: Shm, content: seq<Byte>, env: PutEnv, count: nat, unopenable: set<string>)
    requires PutSucceeds(st, content, env)
    ensures Get(Put(st, content, env).0, env.name, 0, count, unopenable) ==
            match Reached(st.dirs, env, unopenable)
            case None => Returned(None)
            case Some(d) =>
              if Some(d) == Chosen(st.dirs, env.attempts, 0) && count <= |content|
              then Returned(Some(content[..count]))
              else Raised(ValueError)
  {
    var after := Put(st, content, env).0;
    var d := PutFiles(st, content, env);
    SearchAfterPut(st, content, env, unopenable);
    SearchFinds(after.files.Keys, st.dirs, env.name, unopenable);
    if Reached(st.dirs, env, unopenable) == Some(d) {
      GetFound(after, env.name, content, d, 0, count, unopenable);
    } else if Reached(st.dirs, env, unopenable).Some? {
      EmptyFileFails(after, env.name, count, unopenable);
    }
  }

  /** An empty file cannot be mapped. */
  lemma EmptyFileFails(st: Shm, name: string, count: nat, unopenable: set<string>)
    requires name != ""
    requires var found := Search(st.files.Keys, st.dirs, name, unopenable);
             found.Some? && Path(found.value, name) in st.files && st.files[Path(found.value, name)] == []
    ensures Get(st, name, 0, count, unopenable) == Raised(ValueError)
  {
  }

  /** When a put leaves an empty file in an earlier directory, reading the name fails while every
      directory can be opened and no file of the name is removed. */
  lemma UnreachablePut(st: Shm, content: seq<Byte>, env: PutEnv, count: nat)
    requires PutSucceeds(st, content, env) && DistinctDirs(st.dirs) && !SingleFile(st.dirs, env.attempts)
    ensures Get(Put(st, content, env).0, env.name, 0, count, {}) == Raised(ValueError)
  {
    var d := PutFiles(st, content, env);
    ReachedLeftOver(st.dirs, env, {});
    GetAfterPut(st, content, env, count, {});
  }

  /** A name without a file is not found, and an empty name, a bad size or an offset are refused or ignored,
      whatever the files. */
  lemma GetAbsent(st: Shm, name: string, offset: int, count: int, unopenable: set<string>)
    requires name == "" || !Exists(st.files.Keys, st.dirs, name) || count + 9 < 0 || offset != 0
    ensures Get(st, name, offset, count, unopenable) ==
            if offset == 0 && (name == "" || count + 9 < 0) then Raised(SharedMemoryException) else Returned(None)
  {
    SearchFinds(st.files.Keys, st.dirs, name, unopenable);
  }

  /** Freeing a name that is not tracked does nothing and answers False; freeing without deletion only
      untracks. */
  lemma FreeKeepsFiles(st: Shm, name: string, deleteFile: bool, faults: Faults)
    requires name !in st.tracked || !deleteFile
    ensures Free(st, name, deleteFile, faults) ==
            (st.(tracked := st.tracked - {name}), Returned(name in st.tracked))
  {
    if name !in st.tracked { assert st.tracked - {name} == st.tracked; }
  }

  /** Freeing a tracked name with deletion removes the file the search finds, so a given file of the
      name goes exactly when the search ends there. */
  lemma FreeDeletesOwnFile(st: Shm, name: string, faults: Faults, d: string)
    requires name in st.tracked && name != "" && d in st.dirs && Path(d, name) in st.files
    ensures var found := Search(st.files.Keys, st.dirs, name, faults.unopenable);
            var (after, r) := Free(st, name, true, faults);
            && r == Returned(found.Some? && faults.removable)
            && after.tracked == st.tracked - {name} && after.dirs == st.dirs
            && after.files == (if r.value then st.files - {Path(found.value, name)} else st.files)
            && (Path(d, name) !in after.files <==> r.value && found == Some(d))
            && (OnlyIn(st, name, d) ==> (found == if d in faults.unopenable then None else Some(d)))
  {
    if OnlyIn(st, name, d) { SearchOnly(st, name, d, faults.unopenable); }
    SearchFinds(st.files.Keys, st.dirs, name, faults.unopenable);
  }

  /** After a deletion that answered True the name is gone if and only if it was in one directory only;
      then no read finds it, and a put may use it again. */
  lemma DeletedNameIsGone(st: Shm, name: string, faults: Faults)
    requires name in st.tracked && name != "" && Free(st, name, true, faults).1 == Returned(true)
    ensures var found := Search(st.files.Keys, st.dirs, name, faults.unopenable);
            var after := Free(st, name, true, faults).0;
            && found.Some?
            && (!Exists(after.files.Keys, after.dirs, name) <==> OnlyIn(st, name, found.value))
            && (!Exists(after.files.Keys, after.dirs, name) ==>
                  forall count: nat, unopenable :: Get(after, name, 0, count, unopenable) == Returned(None))
  {
    var after := Free(st, name, true, faults).0;
    SearchFinds(st.files.Keys, st.dirs, name, faults.unopenable);
    var d := Search(st.files.Keys, st.dirs, name, faults.unopenable).value;
    if OnlyIn(st, name, d) {
      forall i | 0 <= i < |after.dirs| ensures Path(after.dirs[i], name) !in after.files.Keys {
        assert after.dirs[i] in st.dirs;
      }
    }
    if !Exists(after.files.Keys, after.dirs, name) {
      forall e | e in st.dirs && Path(e, name) in st.files ensures e == d {
        var i :| 0 <= i < |st.dirs| && st.dirs[i] == e;
        assert Path(after.dirs[i], name) !in after.files.Keys;
      }
      forall count: nat, unopenable ensures Get(after, name, 0, count, unopenable) == Returned(None) {
        SearchFinds(after.files.Keys, after.dirs, name, unopenable);
      }
    }
  }

  /** Freeing with deletion after a put, for every creation and every fault: the answer is True if some
      file of the name was removed, but the content is gone only if the search ended at its file. */
  lemma FreeAfterPut(st: Shm, content: seq<Byte>, env: PutEnv, faults: Faults)
    requires PutSucceeds(st, content, env)
    ensures var chosen := Chosen(st.dirs, env.attempts, 0);
            var found := Reached(st.dirs, env, faults.unopenable);
            var (gone, r) := Free(Put(st, content, env).0, env.name, true, faults);
            && chosen.Some? && r == Returned(found.Some? && faults.removable)
            && gone.tracked == st.tracked - {env.name}
            && (Path(chosen.value, env.name) !in gone.files <==> r.value && found == chosen)
            && (Path(chosen.value, env.name) in gone.files ==>
                  gone.files[Path(chosen.value, env.name)] == Block(content, env.order))
            && (r.value ==> (!Exists(gone.files.Keys, st.dirs, env.name) <==> SingleFile(st.dirs, env.attempts)))
  {
    var after := Put(st, content, env).0;
    var d := PutFiles(st, content, env);
    SearchAfterPut(st, content, env, faults.unopenable);
    FreeDeletesOwnFile(after, env.name, faults, d);
    var found := Reached(st.dirs, env, faults.unopenable);
    if found.Some? && faults.removable {
      DeletedNameIsGone(after, env.name, faults);
      SearchFinds(after.files.Keys, st.dirs, env.name, faults.unopenable);
      OneFileIff(st, content, env, found.value);
    }
  }

  lemma OneFileIff(st: Shm, content: seq<Byte>, env: PutEnv, d: string)
    requires PutSucceeds(st, content, env)
    requires d in st.dirs && Path(d, env.name) in Put(st, content, env).0.files
    ensures OnlyIn(Put(st, content, env).0, env.name, d) <==> SingleFile(st.dirs, env.attempts)
  {
    var after := Put(st, content, env).0;
    var c := PutFiles(st, content, env);
    if OnlyIn(after, env.name, d) {
      forall i, j | Touched(st.dirs, env.attempts, 0, i) && Touched(st.dirs, env.attempts, 0, j)
        ensures st.dirs[i] == st.dirs[j]
      {
        assert Path(st.dirs[i], env.name) in after.files && Path(st.dirs[j], env.name) in after.files;
      }
    }
  }

  /** Without faults, a deletion after a put answers True in any case, and removes the content if and only
      if the creation left files in one directory only. */
  lemma PutThenFree(st: Shm, content: seq<Byte>, env: PutEnv)
    requires PutSucceeds(st, content, env) && DistinctDirs(st.dirs)
    ensures var chosen := Chosen(st.dirs, env.attempts, 0);
            var (gone, r) := Free(Put(st, content, env).0, env.name, true, Faults({}, true));
            && r == Returned(true) && chosen.Some?
            && (Path(chosen.value, env.name) !in gone.files <==> SingleFile(st.dirs, env.attempts))
            && (Path(chosen.value, env.name) in gone.files ==>
                  gone.files[Path(chosen.value, env.name)] == Block(content, env.order))
  {
    FreeAfterPut(st, content, env, Faults({}, true));
    if SingleFile(st.dirs, env.attempts) {
      ReachedSingle(st.dirs, env, {});
    } else {
      ReachedLeftOver(st.dirs, env, {});
    }
  }

  // ----- A left-over file, concretely -----

  function TwoDirs(): Shm { Shm(["/dev/shm", "/tmp"], map[], {}) }

  /** The first of the two directories opens the file but cannot size it; the second succeeds. */
  function SizedInSecond(): PutEnv {
    PutEnv("m", i => if i == 0 then TruncateFails else Succeeds, Little, Faults({}, true))
  }

  function SecondFile(): Files { map[Path("/tmp", "m") := Block([7], Little)] }

  lemma LeftOverPut()
    ensures Put(TwoDirs(), [7], SizedInSecond()).0 ==
            Shm(["/dev/shm", "/tmp"], SecondFile()[Path("/dev/shm", "m") := []], {"m"})
  {
    var st, env := TwoDirs(), SizedInSecond();
    assert !Exists(st.files.Keys, st.dirs, "m");
    assert CreateFile(st.files, st.dirs, "m", 10, env.attempts, 0)
        == CreateFile(st.files[Path("/dev/shm", "m") := []], st.dirs, "m", 10, env.attempts, 1);
  }

  /** A concrete deletion that keeps the content: deleting answers True and removes the empty file; the
      content, which could not be read before unless the first directory was closed to opening, reads back. */
  lemma FreeMayKeepContent()
    ensures var after := Put(TwoDirs(), [7], SizedInSecond()).0;
            var (gone, r) := Free(after, "m", true, Faults({}, true));
            && Get(after, "m", 0, 1, {}) == Raised(ValueError)
            && Get(after, "m", 0, 1, {"/dev/shm"}) == Returned(Some([7]))
            && r == Returned(true)
            && Get(gone, "m", 0, 1, {}) == Returned(Some([7]))
  {
    LeftOverPut();
    var after := Put(TwoDirs(), [7], SizedInSecond()).0;
    var content: seq<Byte> := [7];
    assert content[..1] == content;
    EmptyFileFails(after, "m", 1, {});
    GetFound(after, "m", [7], "/tmp", 0, 1, {"/dev/shm"});
    var gone := Free(after, "m", true, Faults({}, true)).0;
    assert gone.files == SecondFile();
    GetFound(gone, "m", [7], "/tmp", 0, 1, {});
  }
}
