/** FileAccessorUnix over mutable files: a file is an array of bytes that every map of it shares. */
module FileAccessorUnix {
  import opened Outcomes
  import opened Utf8
  import opened LengthHeader
  import opened MemoryMap
  import opened FileSystem

  class Disk {
    var files: map<Path, array<Byte>>

    /** Two paths never share a file. */
    ghost predicate Valid()
      reads this
    {
      forall p, q :: p in files && q in files && p != q ==> files[p] != files[q]
    }

    ghost function View(): (v: Files)
      reads this, files.Values
    {
      map p | p in files :: files[p][..]
    }
  }

  class FileAccessorUnix {
    const disk: Disk
    const validDirs: seq<string>

    constructor (disk: Disk, validDirs: seq<string>)
      ensures this.disk == disk && this.validDirs == validDirs
    {
      this.disk, this.validDirs := disk, validDirs;
    }

    /** The loop of _open_mem_map_file. */
    method OpenMemMapFile(name: string, unopenable: set<string>) returns (r: Option<string>)
      ensures r == Search(disk.files.Keys, validDirs, name, unopenable)
    {
      var i := 0;
      assert validDirs[0..] == validDirs;
      while i < |validDirs|
        invariant 0 <= i <= |validDirs|
        invariant Search(disk.files.Keys, validDirs, name, unopenable)
               == Search(disk.files.Keys, validDirs[i..], name, unopenable)
      {
        if Path(validDirs[i], name) in disk.files && validDirs[i] !in unopenable {
          return Some(validDirs[i]);
        }
        assert validDirs[i..][1..] == validDirs[i + 1..];
        i := i + 1;
      }
      return None;
    }

    /** The first loop of _create_mem_map_file. */
    method FileExists(name: string) returns (r: bool)
      ensures r == Exists(disk.files.Keys, validDirs, name)
    {
      var i := 0;
      while i < |validDirs|
        invariant 0 <= i <= |validDirs|
        invariant forall j :: 0 <= j < i ==> Path(validDirs[j], name) !in disk.files
      {
        if Path(validDirs[i], name) in disk.files {
          return true;
        }
        i := i + 1;
      }
      return false;
    }

    /** open(path, 'wb+') and truncate in one directory. */
    method TryDirectory(path: Path, size: nat, attempt: Attempt) returns (ok: bool)
      requires disk.Valid()
      modifies disk`files
      ensures disk.Valid()
      ensures ok <==> attempt.Succeeds?
      ensures attempt.OpenFails? ==> disk.files == old(disk.files)
      ensures !attempt.OpenFails? ==>
                && path in disk.files && fresh(disk.files[path])
                && disk.files == old(disk.files)[path := disk.files[path]]
                && disk.files[path][..] == Zeros(if ok then size else 0)
      ensures disk.View() == match attempt
                             case OpenFails => old(disk.View())
                             case TruncateFails => old(disk.View())[path := []]
                             case Succeeds => old(disk.View())[path := Zeros(size)]
    {
      ok := attempt.Succeeds?;
      if attempt.OpenFails? { return; }
      var file := new Byte[if ok then size else 0](_ => 0);
      disk.files := disk.files[path := file];
      assert file[..] == Zeros(file.Length);
      assert disk.View() == old(disk.View())[path := file[..]];
    }

    /** _create_mem_map_file: refuse an existing file, then try each directory in turn. */
    method CreateMemMapFile(name: string, size: nat, attempts: Attempts) returns (r: Outcome<Option<string>>)
      requires disk.Valid()
      modifies disk`files
      ensures disk.Valid()
      ensures r.Raised? <==> Exists(old(disk.files.Keys), validDirs, name)
      ensures r.Raised? ==> r.exc == SharedMemoryException && disk.files == old(disk.files)
      ensures r.Returned? ==>
                (disk.View(), r.value) == CreateFile(old(disk.View()), validDirs, name, size, attempts, 0)
      ensures r.Returned? && r.value.Some? ==>
                && Path(r.value.value, name) in disk.files
                && fresh(disk.files[Path(r.value.value, name)])
                && disk.files[Path(r.value.value, name)][..] == Zeros(size)
      ensures forall p :: p in old(disk.files) ==> p in disk.files && disk.files[p] == old(disk.files[p])
    {
      var present := FileExists(name);
      if present { return Raised(SharedMemoryException); }
      var i := 0;
      while i < |validDirs|
        invariant 0 <= i <= |validDirs|
        invariant disk.Valid()
        invariant CreateFile(old(disk.View()), validDirs, name, size, attempts, 0)
               == CreateFile(disk.View(), validDirs, name, size, attempts, i)
        invariant forall p :: p in old(disk.files) ==> p in disk.files && disk.files[p] == old(disk.files[p])
      {
        var ok := TryDirectory(Path(validDirs[i], name), size, attempts(i));
        if ok { return Returned(Some(validDirs[i])); }
        i := i + 1;
      }
      return Returned(None);
    }

    method CreateMemMap(name: string, size: int, attempts: Attempts) returns (r: Outcome<Option<MMap>>)
      requires disk.Valid()
      modifies disk`files
      ensures disk.Valid()
      ensures var (files, dir) := CreateMap(old(disk.View()), validDirs, name, size, attempts);
              && disk.View() == files
              && (dir.Raised? <==> r.Raised?) && (r.Raised? ==> r.exc == dir.exc)
              && (r.Returned? ==> (r.value.Some? <==> dir.value.Some?))
              && (r.Returned? && r.value.Some? ==>
                    && Path(dir.value.value, name) in disk.files
                    && r.value.value.buf == disk.files[Path(dir.value.value, name)])
      ensures r.Returned? && r.value.Some? ==>
                var m := r.value.value;
                && fresh(m) && fresh(m.buf) && m.Valid() && !m.closed && m.writable && m.pos == 0
                && m.size == size == m.buf.Length && m.buf[0] == INITIALIZED
      ensures forall p :: p in old(disk.files) ==> p in disk.files && disk.files[p] == old(disk.files[p])
    {
      if name == "" || size <= 0 { return Raised(SharedMemoryException); }
      var file := CreateMemMapFile(name, size, attempts);
      if file.Raised? { return Raised(file.exc); }
      if file.value.None? { return Returned(None); }
      var m := MapNew(Path(file.value.value, name), size);
      return Returned(Some(m));
    }

    /** Maps a file just sized and sets its flag, which is not set: the "already exists" error of
        create_mem_map cannot occur. */
    method MapNew(path: Path, size: nat) returns (m: MMap)
      requires disk.Valid() && path in disk.files && disk.files[path][..] == Zeros(size) && size > 0
      modifies disk.files[path]
      ensures fresh(m) && m.Valid() && !m.closed && m.writable && m.pos == 0
      ensures m.size == size && m.buf == disk.files[path] && m.buf.Length == size && m.buf[0] == INITIALIZED
      ensures disk.View() == old(disk.View())[path := [INITIALIZED] + Zeros(size - 1)]
    {
      m := new MMap(disk.files[path], size, true);
      var initialized := IsMemMapInitialized(m);
      assert initialized == Returned(false);
      var marked := SetMemMapInitialized(m);
      assert m.buf[..] == [INITIALIZED] + Zeros(size - 1);
    }

    method OpenMemMap(name: string, size: int, unopenable: set<string>) returns (r: Outcome<Option<MMap>>)
      ensures var spec := OpenMap(disk.View(), validDirs, name, size, unopenable);
              && (spec.Raised? <==> r.Raised?) && (r.Raised? ==> r.exc == spec.exc)
              && (r.Returned? ==> (r.value.Some? <==> spec.value.Some?))
              && (r.Returned? && r.value.Some? ==>
                    var (dir, mapped) := spec.value.value;
                    var m := r.value.value;
                    && Path(dir, name) in disk.files
                    && fresh(m) && m.Valid() && !m.closed && !m.writable && m.pos == 0
                    && m.size == mapped && m.buf == disk.files[Path(dir, name)])
    {
      if name == "" || size < 0 { return Raised(SharedMemoryException); }
      SearchFinds(disk.files.Keys, validDirs, name, unopenable);
      assert disk.View().Keys == disk.files.Keys;
      var dir := OpenMemMapFile(name, unopenable);
      if dir.None? { return Returned(None); }
      var file := disk.files[Path(dir.value, name)];
      var mapped := if size == 0 then file.Length else size;
      if mapped == 0 || mapped > file.Length { return Raised(ValueError); }
      var m := new MMap(file, mapped, false);
      return Returned(Some(m));
    }

    method DeleteMemMap(name: string, m: MMap, unopenable: set<string>, removable: bool)
      returns (r: Outcome<bool>)
      requires disk.Valid()
      modifies disk`files, m`closed
      ensures disk.Valid()
      ensures (disk.View(), r) == DeleteMap(old(disk.View()), validDirs, name, unopenable, removable)
      ensures m.closed == (old(m.closed) || r == Returned(true))
      ensures forall p :: p in disk.files ==> p in old(disk.files) && disk.files[p] == old(disk.files[p])
    {
      if name == "" { return Raised(SharedMemoryException); }
      SearchFinds(disk.files.Keys, validDirs, name, unopenable);
      assert disk.View().Keys == disk.files.Keys;
      var dir := OpenMemMapFile(name, unopenable);
      if dir.None? || !removable { return Returned(false); }
      ghost var before := disk.View();
      disk.files := disk.files - {Path(dir.value, name)};
      m.Close();
      assert disk.View() == before - {Path(dir.value, name)};
      return Returned(true);
    }
  }
}
