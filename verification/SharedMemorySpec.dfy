/** The shared memory manager on values: the directories, the files in them and the names it tracks. */
module SharedMemorySpec {
  import opened Outcomes
  import opened Utf8
  import opened LengthHeader
  import opened FileSystem
  import opened SharedMemoryMap

  datatype Shm = Shm(dirs: seq<string>, files: Files, tracked: set<string>)

  datatype Metadata = Metadata(name: string, count: nat)

  /** What the outside world decides during one put: the generated name, how each directory
      behaves, the host's byte order, and the faults of a deletion. */
  datatype PutEnv = PutEnv(name: string, attempts: Attempts, order: ByteOrder, faults: Faults)

  /** Directories whose files cannot be opened now, and whether a file can be removed now. */
  datatype Faults = Faults(unopenable: set<string>, removable: bool)

  /** The bytes of a map holding `content`. */
  function Block(content: seq<Byte>, order: ByteOrder): (b: seq<Byte>)
    requires |content| < TWO_64
    ensures |b| == HEADER_BYTES + |content| && b[HEADER_BYTES..] == content
  {
    [INITIALIZED] + LengthToBytes(|content|, order).value + content
  }

  function Put(st: Shm, content: seq<Byte>, env: PutEnv): (Shm, Outcome<Option<Metadata>>) {
    var (files, dir) := CreateMap(st.files, st.dirs, env.name, HEADER_BYTES + |content|, env.attempts);
    match dir
    case Raised(e) => (st, Raised(e))
    case Returned(None) => (st.(files := files), Returned(None))
    case Returned(Some(d)) =>
      if |content| >= TWO_64 then
        var (kept, _) := DeleteMap(files, st.dirs, env.name, env.faults.unopenable, env.faults.removable);
        (st.(files := kept), Returned(None))
      else
        (st.(files := files[Path(d, env.name) := Block(content, env.order)], tracked := st.tracked + {env.name}),
         Returned(Some(Metadata(env.name, |content|))))
  }

  function Get(st: Shm, name: string, offset: int, count: int, unopenable: set<string>)
    : Outcome<Option<seq<Byte>>>
  {
    if offset != 0 then Returned(None)
    else
      var found :- OpenMap(st.files, st.dirs, name, HEADER_BYTES + count, unopenable);
      match found
      case None => Returned(None)
      case Some((dir, mapped)) =>
        var content :- ReadContent(st.files[Path(dir, name)][..mapped], 0, count);
        Returned(Some(content))
  }

  function Free(st: Shm, name: string, deleteFile: bool, faults: Faults): (Shm, Outcome<bool>) {
    if name !in st.tracked then (st, Returned(false))
    else if !deleteFile then (st.(tracked := st.tracked - {name}), Returned(true))
    else
      var (files, r) := DeleteMap(st.files, st.dirs, name, faults.unopenable, faults.removable);
      match r
      case Raised(e) => (st, Raised(e))
      case Returned(_) => (st.(files := files, tracked := st.tracked - {name}), r)
  }
}
