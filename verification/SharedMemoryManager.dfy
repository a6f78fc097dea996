/** SharedMemoryManager over the mutable disk and maps, proved against its specification on values. */
module SharedMemoryManager {
  import opened Outcomes
  import opened Utf8
  import opened LengthHeader
  import opened FileSystem
  import opened FileAccessorUnix
  import opened SharedMemoryMap
  import Spec = SharedMemorySpec

  class SharedMemoryManager {
    const accessor: FileAccessorUnix
    var live: map<string, SharedMemoryMap>

    /** Every tracked map is open, is filed under its own non-empty name, and is tracked once. */
    ghost predicate Valid()
      reads this, accessor.disk, (set n | n in live :: live[n].memMap)
    {
      && accessor.disk.Valid()
      && (forall n :: n in live ==>
            && n != "" && live[n].name == n && live[n].accessor == accessor
            && live[n].memMap.Valid() && !live[n].memMap.closed)
      && (forall n, m :: n in live && m in live && n != m ==> live[n].memMap != live[m].memMap)
    }

    ghost function State(): Spec.Shm
      reads this, accessor.disk, accessor.disk.files.Values
    {
      Spec.Shm(accessor.validDirs, accessor.disk.View(), live.Keys)
    }

    constructor (accessor: FileAccessorUnix)
      requires accessor.disk.Valid()
      ensures Valid() && this.accessor == accessor && live == map[]
    {
      this.accessor := accessor;
      live := map[];
    }

    method PutBytes(content: seq<Byte>, env: Spec.PutEnv) returns (r: Outcome<Option<Spec.Metadata>>)
      requires Valid()
      modifies this`live, accessor.disk`files
      ensures Valid()
      ensures (State(), r) == Spec.Put(old(State()), content, env)
    {
      var created := Create(env.name, |content|, env.attempts);
      if created.Raised? { return Raised(created.exc); }
      if created.value.None? { return Returned(None); }
      var region := created.value.value;
      ghost var dir :=
        CreateMap(old(accessor.disk.View()), accessor.validDirs, env.name, HEADER_BYTES + |content|, env.attempts).1;
      var meta := Store(created.value.value, content, env, Path(dir.value.value, env.name));
      return Returned(meta);
    }

    /** The rest of put_bytes, once there is a map: write, then keep the map or dispose of it. */
    method Store(region: SharedMemoryMap, content: seq<Byte>, env: Spec.PutEnv, ghost path: Path)
      returns (r: Option<Spec.Metadata>)
      requires Valid() && forall n :: n in live ==> live[n].memMap != region.memMap
      requires env.name != "" && region.name == env.name && region.accessor == accessor
      requires region.memMap.Valid() && !region.memMap.closed && region.memMap.writable
      requires region.memMap.size == HEADER_BYTES + |content| == region.memMap.buf.Length
      requires region.memMap.buf[0] == INITIALIZED
      requires path in accessor.disk.files && accessor.disk.files[path] == region.memMap.buf
      modifies this`live, accessor.disk`files, region.memMap`pos, region.memMap`closed, region.memMap.buf
      ensures Valid()
      ensures |content| < TWO_64 ==>
                && r == Some(Spec.Metadata(env.name, |content|))
                && accessor.disk.View() == old(accessor.disk.View())[path := Spec.Block(content, env.order)]
                && live.Keys == old(live.Keys) + {env.name}
      ensures |content| >= TWO_64 ==>
                && r == None && live == old(live)
                && accessor.disk.View() ==
                   DeleteMap(old(accessor.disk.View()), accessor.validDirs, env.name,
                             env.faults.unopenable, env.faults.removable).0
    {
      var written := Fill(region, content, env.order, path);
      if written.Raised? {
        var _ := region.Dispose(true, env.faults.unopenable, env.faults.removable);
        return None;
      }
      // A write that succeeds writes everything, so the length comparison of put_bytes always holds.
      Track(region);
      return Some(Spec.Metadata(env.name, |content|));
    }

    method Track(region: SharedMemoryMap)
      requires Valid()
      requires region.name != "" && region.accessor == accessor && region.memMap.Valid() && !region.memMap.closed
      requires forall n :: n in live ==> live[n].memMap != region.memMap
      modifies this`live
      ensures Valid() && live == old(live)[region.name := region]
    {
      live := live[region.name := region];
    }

    /** Writes into a map that was made for content of this length. */
    method Fill(region: SharedMemoryMap, content: seq<Byte>, order: ByteOrder, ghost path: Path)
      returns (written: Outcome<nat>)
      requires accessor.disk.Valid() && region.memMap.Valid() && !region.memMap.closed && region.memMap.writable
      requires region.memMap.size == HEADER_BYTES + |content| == region.memMap.buf.Length
      requires region.memMap.buf[0] == INITIALIZED
      requires path in accessor.disk.files && accessor.disk.files[path] == region.memMap.buf
      modifies region.memMap`pos, region.memMap.buf
      ensures region.memMap.Valid()
      ensures written.Returned? <==> |content| < TWO_64
      ensures written.Returned? ==>
                && written.value == |content|
                && accessor.disk.View() == old(accessor.disk.View())[path := Spec.Block(content, order)]
      ensures written.Raised? ==> accessor.disk.View() == old(accessor.disk.View())
    {
      written := region.PutBytes(content, order);
      if written.Returned? {
        assert region.memMap.buf[..] == Spec.Block(content, order);
      }
    }

    method PutString(content: PyString, env: Spec.PutEnv) returns (r: Outcome<Option<Spec.Metadata>>)
      requires Valid()
      modifies this`live, accessor.disk`files
      ensures Valid()
      ensures Encode(content).Raised? ==> r == Raised(UnicodeError) && State() == old(State())
      ensures Encode(content).Returned? ==> (State(), r) == Spec.Put(old(State()), Encode(content).value, env)
    {
      EncodesIffScalar(content);
      var contentBytes := Encode(content);
      if contentBytes.Raised? { return Raised(contentBytes.exc); }
      r := PutBytes(contentBytes.value, env);
    }

    method GetBytes(name: string, offset: int, count: int, unopenable: set<string>)
      returns (r: Outcome<Option<seq<Byte>>>)
      requires Valid()
      ensures r == Spec.Get(State(), name, offset, count, unopenable)
    {
      if offset != 0 { return Returned(None); }
      var found := Open(name, count, unopenable);
      if found.Raised? { return Raised(found.exc); }
      if found.value.None? { return Returned(None); }
      var region := found.value.value;
      var content := region.GetBytes(0, count);
      var _ := region.Dispose(false, {}, false);
      if content.Raised? { return Raised(content.exc); }
      return Returned(Some(content.value));
    }

    method GetString(name: string, offset: int, count: int, unopenable: set<string>)
      returns (r: Outcome<Option<PyString>>)
      requires Valid()
      ensures var bytes := Spec.Get(State(), name, offset, count, unopenable);
              match bytes
              case Raised(e) => r == Raised(e)
              case Returned(None) => r == Returned(None)
              case Returned(Some(b)) =>
                if Decode(b).Raised? then r == Raised(Decode(b).exc) else r == Returned(Some(Decode(b).value))
    {
      var contentBytes := GetBytes(name, offset, count, unopenable);
      if contentBytes.Raised? { return Raised(contentBytes.exc); }
      if contentBytes.value.None? { return Returned(None); }
      var content := Decode(contentBytes.value.value);
      if content.Raised? { return Raised(content.exc); }
      return Returned(Some(content.value));
    }

    method FreeMemMap(name: string, deleteFile: bool, faults: Spec.Faults) returns (r: Outcome<bool>)
      requires Valid()
      modifies this`live, accessor.disk`files, (if name in live then {live[name].memMap} else {})`closed
      ensures Valid()
      ensures (State(), r) == Spec.Free(old(State()), name, deleteFile, faults)
      ensures live == old(live) - {name}
      ensures name in old(live) ==> old(live)[name].memMap.closed
    {
      if name !in live { return Returned(false); }
      var region := live[name];
      r := region.Dispose(deleteFile, faults.unopenable, faults.removable);
      Untrack(name);
    }

    method Untrack(name: string)
      requires accessor.disk.Valid()
      requires forall n :: n in live && n != name ==>
                 && n != "" && live[n].name == n && live[n].accessor == accessor
                 && live[n].memMap.Valid() && !live[n].memMap.closed
      requires forall n, m :: n in live && m in live && n != m ==> live[n].memMap != live[m].memMap
      modifies this`live
      ensures Valid() && live == old(live) - {name}
    {
      live := live - {name};
    }

    method Create(name: string, contentLength: nat, attempts: Attempts)
      returns (r: Outcome<Option<SharedMemoryMap>>)
      requires accessor.disk.Valid()
      modifies accessor.disk`files
      ensures accessor.disk.Valid()
      ensures var (files, dir) :=
                CreateMap(old(accessor.disk.View()), accessor.validDirs, name, HEADER_BYTES + contentLength, attempts);
              && accessor.disk.View() == files
              && (dir.Raised? <==> r.Raised?) && (r.Raised? ==> r.exc == dir.exc)
              && (r.Returned? ==> (r.value.Some? <==> dir.value.Some?))
              && (r.Returned? && r.value.Some? ==>
                    && Path(dir.value.value, name) in accessor.disk.files
                    && r.value.value.memMap.buf == accessor.disk.files[Path(dir.value.value, name)])
      ensures r.Returned? && r.value.Some? ==>
                var m := r.value.value;
                && name != "" && m.name == name && m.accessor == accessor
                && fresh(m.memMap) && fresh(m.memMap.buf) && m.memMap.Valid() && !m.memMap.closed
                && m.memMap.writable && m.memMap.size == HEADER_BYTES + contentLength == m.memMap.buf.Length
                && m.memMap.buf[0] == INITIALIZED
      ensures forall p :: p in old(accessor.disk.files) ==>
                p in accessor.disk.files && accessor.disk.files[p] == old(accessor.disk.files[p])
    {
      var m := accessor.CreateMemMap(name, HEADER_BYTES + contentLength, attempts);
      if m.Raised? { return Raised(m.exc); }
      if m.value.None? { return Returned(None); }
      var region := SharedMemoryMap.Make(accessor, name, m.value.value);
      return Returned(Some(region.value));
    }

    method Open(name: string, contentLength: int, unopenable: set<string>)
      returns (r: Outcome<Option<SharedMemoryMap>>)
      ensures var spec := OpenMap(accessor.disk.View(), accessor.validDirs, name,
                                  HEADER_BYTES + contentLength, unopenable);
              && (spec.Raised? <==> r.Raised?) && (r.Raised? ==> r.exc == spec.exc)
              && (r.Returned? ==> (r.value.Some? <==> spec.value.Some?))
              && (r.Returned? && r.value.Some? ==>
                    var (dir, mapped) := spec.value.value;
                    var m := r.value.value.memMap;
                    && Path(dir, name) in accessor.disk.files && r.value.value.accessor == accessor
                    && fresh(m) && m.Valid() && !m.closed && m.size == mapped
                    && m.buf == accessor.disk.files[Path(dir, name)])
    {
      var m := accessor.OpenMemMap(name, HEADER_BYTES + contentLength, unopenable);
      if m.Raised? { return Raised(m.exc); }
      if m.value.None? { return Returned(None); }
      var region := SharedMemoryMap.Make(accessor, name, m.value.value);
      return Returned(Some(region.value));
    }
  }
}
