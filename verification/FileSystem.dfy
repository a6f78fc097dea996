/** What the directory search of the Unix file accessor does, on values. A file system is a map from
    paths to contents; each attempt of the operating system to open, size or remove a file may fail. */
module FileSystem {
  import opened Outcomes
  import opened Utf8
  import opened LengthHeader

  datatype Path = Path(dir: string, name: string)
  type Files = map<Path, seq<Byte>>

  /** How open(path, 'wb+') followed by truncate ends in one directory. A failed truncate leaves
      the empty file that open made. */
  datatype Attempt = OpenFails | TruncateFails | Succeeds
  type Attempts = nat -> Attempt

  function Zeros(n: nat): seq<Byte> { seq(n, _ => 0) }

  predicate Exists(paths: set<Path>, dirs: seq<string>, name: string) {
    exists i :: 0 <= i < |dirs| && Path(dirs[i], name) in paths
  }

  /** The first directory that has the file and lets it be opened. */
  function Search(paths: set<Path>, dirs: seq<string>, name: string, unopenable: set<string>): Option<string> {
    if dirs == [] then None
    else if Path(dirs[0], name) in paths && dirs[0] !in unopenable then Some(dirs[0])
    else Search(paths, dirs[1..], name, unopenable)
  }

  lemma {:induction false} SearchFinds(paths: set<Path>, dirs: seq<string>, name: string, unopenable: set<string>)
    ensures var r := Search(paths, dirs, name, unopenable);
            && (r.Some? ==> r.value in dirs && Path(r.value, name) in paths && r.value !in unopenable)
            && (r.None? ==> forall d :: d in dirs && Path(d, name) in paths ==> d in unopenable)
  {
    if dirs != [] {
      SearchFinds(paths, dirs[1..], name, unopenable);
    }
  }

  /** The k-th directory has the file and lets it be opened. */
  predicate Opens(paths: set<Path>, dirs: seq<string>, name: string, unopenable: set<string>, k: nat)
    requires k < |dirs|
  {
    Path(dirs[k], name) in paths && dirs[k] !in unopenable
  }

  lemma {:induction false} SearchAt(paths: set<Path>, dirs: seq<string>, name: string, unopenable: set<string>, k: nat)
    requires k < |dirs| && Opens(paths, dirs, name, unopenable, k)
    requires forall j :: 0 <= j < k ==> !Opens(paths, dirs, name, unopenable, j)
    ensures Search(paths, dirs, name, unopenable) == Some(dirs[k])
  {
    if k > 0 {
      assert !Opens(paths, dirs, name, unopenable, 0);
      forall j | 0 <= j < k - 1 ensures !Opens(paths, dirs[1..], name, unopenable, j) {
        assert !Opens(paths, dirs, name, unopenable, j + 1);
      }
      SearchAt(paths, dirs[1..], name, unopenable, k - 1);
    }
  }

  /** The search ends at the first directory that has the file and opens it, and fails if there is none. */
  lemma {:induction false} SearchMeaning(paths: set<Path>, dirs: seq<string>, name: string, unopenable: set<string>)
    ensures forall k :: 0 <= k < |dirs| && Opens(paths, dirs, name, unopenable, k)
                        && (forall j :: 0 <= j < k ==> !Opens(paths, dirs, name, unopenable, j)) ==>
              Search(paths, dirs, name, unopenable) == Some(dirs[k])
    ensures Search(paths, dirs, name, unopenable).None? <==>
            forall k :: 0 <= k < |dirs| ==> !Opens(paths, dirs, name, unopenable, k)
  {
    forall k | 0 <= k < |dirs| && Opens(paths, dirs, name, unopenable, k)
               && (forall j :: 0 <= j < k ==> !Opens(paths, dirs, name, unopenable, j))
      ensures Search(paths, dirs, name, unopenable) == Some(dirs[k])
    {
      SearchAt(paths, dirs, name, unopenable, k);
    }
    SearchFinds(paths, dirs, name, unopenable);
    if Search(paths, dirs, name, unopenable).Some? {
      var k :| 0 <= k < |dirs| && dirs[k] == Search(paths, dirs, name, unopenable).value;
      assert Opens(paths, dirs, name, unopenable, k);
    }
  }

  /** The search depends only on where the name is. */
  lemma {:induction false} SearchFrame(p: set<Path>, q: set<Path>, dirs: seq<string>, name: string,
                                       unopenable: set<string>)
    requires forall d :: d in dirs ==> (Path(d, name) in p <==> Path(d, name) in q)
    ensures Search(p, dirs, name, unopenable) == Search(q, dirs, name, unopenable)
  {
    if dirs != [] {
      SearchFrame(p, q, dirs[1..], name, unopenable);
    }
  }

  /** Tries the directories from the i-th on. */
  function CreateFile(files: Files, dirs: seq<string>, name: string, size: nat, attempts: Attempts, i: nat)
    : (Files, Option<string>)
    requires i <= |dirs|
    decreases |dirs| - i
  {
    if i == |dirs| then (files, None)
    else
      match attempts(i)
      case OpenFails => CreateFile(files, dirs, name, size, attempts, i + 1)
      case TruncateFails => CreateFile(files[Path(dirs[i], name) := []], dirs, name, size, attempts, i + 1)
      case Succeeds => (files[Path(dirs[i], name) := Zeros(size)], Some(dirs[i]))
  }

  /** create_mem_map: the file made and the directory it is in. */
  function CreateMap(files: Files, dirs: seq<string>, name: string, size: int, attempts: Attempts)
    : (Files, Outcome<Option<string>>)
  {
    if name == "" || size <= 0 || Exists(files.Keys, dirs, name) then
      (files, Raised(SharedMemoryException))
    else
      var (made, dir) := CreateFile(files, dirs, name, size, attempts, 0);
      match dir
      case None => (made, Returned(None))
      case Some(d) => (made[Path(d, name) := [INITIALIZED] + Zeros(size - 1)], Returned(dir))
  }

  /** open_mem_map: the directory reached and the number of bytes mapped; size 0 maps the whole file. */
  function OpenMap(files: Files, dirs: seq<string>, name: string, size: int, unopenable: set<string>)
    : (r: Outcome<Option<(string, nat)>>)
    ensures r.Returned? && r.value.Some? ==>
              && Path(r.value.value.0, name) in files
              && 0 < r.value.value.1 <= |files[Path(r.value.value.0, name)]|
  {
    if name == "" || size < 0 then Raised(SharedMemoryException)
    else
      SearchFinds(files.Keys, dirs, name, unopenable);
      match Search(files.Keys, dirs, name, unopenable)
      case None => Returned(None)
      case Some(d) =>
        var length := |files[Path(d, name)]|;
        var mapped := if size == 0 then length else size;
        if mapped == 0 || mapped > length then Raised(ValueError) else Returned(Some((d, mapped)))
  }

  /** delete_mem_map: the file is found by name again, and a failure is only reported. */
  function DeleteMap(files: Files, dirs: seq<string>, name: string, unopenable: set<string>, removable: bool)
    : (Files, Outcome<bool>)
  {
    if name == "" then (files, Raised(SharedMemoryException))
    else
      match Search(files.Keys, dirs, name, unopenable)
      case None => (files, Returned(false))
      case Some(d) =>
        if removable then (files - {Path(d, name)}, Returned(true)) else (files, Returned(false))
  }
}
