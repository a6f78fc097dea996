/** A named memory map holding a length header and content. */
module SharedMemoryMap {
  import opened Outcomes
  import opened Utf8
  import opened LengthHeader
  import opened MemoryMap
  import opened FileSystem
  import opened FileAccessorUnix

  /** The length stored in a map with these bytes. */
  function StoredLength(bytes: seq<Byte>): Outcome<int> {
    if |bytes| < FLAG_BYTES then Raised(ValueError)
    else BytesToLong(bytes[FLAG_BYTES..if |bytes| < HEADER_BYTES then |bytes| else HEADER_BYTES])
  }

  /** What get_bytes returns from a map with these bytes. The stored length is decoded and then not
      used: the size of the map alone bounds the read. */
  function ReadContent(bytes: seq<Byte>, offset: int, count: int): Outcome<seq<Byte>> {
    if StoredLength(bytes).Raised? then Raised(StoredLength(bytes).exc)
    else
      var start := HEADER_BYTES + if offset > 0 then offset else 0;
      if start > |bytes| then Raised(ValueError)
      else if 0 < count <= |bytes| - start then Returned(bytes[start..start + count])
      else Returned(bytes[start..])
  }

  lemma Behind(s: seq<Byte>, a: nat, i: nat, j: nat)
    requires i <= j && a + j <= |s|
    ensures s[a + i..a + j] == s[a..][i..j]
  {
    forall k | 0 <= k < j - i ensures s[a + i..a + j][k] == s[a..][i..j][k] {
    }
  }

  /** What a read of a map gives, in terms of the content behind its nine header bytes: up to `count` bytes of
      it from the offset on, all of them for a count that is not positive or too big; a map too small for
      the header, or an offset behind the content, is refused. */
  lemma ReadContentMeaning(bytes: seq<Byte>, offset: int, count: int)
    ensures |bytes| == 0 ==> ReadContent(bytes, offset, count) == Raised(ValueError)
    ensures 0 < |bytes| < 9 ==> ReadContent(bytes, offset, count) == Raised(StructError)
    ensures |bytes| >= 9 ==>
              var content, from := bytes[9..], if offset < 0 then 0 else offset;
              ReadContent(bytes, offset, count) ==
              if from > |content| then Raised(ValueError)
              else if 0 < count && from + count <= |content| then Returned(content[from..from + count])
              else Returned(content[from..])
  {
    if |bytes| >= 9 {
      assert StoredLength(bytes).Returned?;
      var from := if offset < 0 then 0 else offset;
      if from <= |bytes| - 9 {
        Behind(bytes, 9, from, |bytes| - 9);
        assert bytes[9 + from..|bytes|] == bytes[9 + from..];
        assert bytes[9..][from..|bytes| - 9] == bytes[9..][from..];
        if 0 < count && from + count <= |bytes| - 9 {
          Behind(bytes, 9, from, from + count);
        }
      }
    }
  }

  class SharedMemoryMap {
    const accessor: FileAccessorUnix
    const name: string
    const memMap: MMap

    constructor (accessor: FileAccessorUnix, name: string, memMap: MMap)
      ensures this.accessor == accessor && this.name == name && this.memMap == memMap
    {
      this.accessor, this.name, this.memMap := accessor, name, memMap;
    }

    /** __init__ refuses an empty name. */
    static method Make(accessor: FileAccessorUnix, name: string, memMap: MMap)
      returns (r: Outcome<SharedMemoryMap>)
      ensures r.Returned? <==> name != ""
      ensures r.Returned? ==> fresh(r.value) && r.value.accessor == accessor
      ensures r.Returned? ==> r.value.name == name && r.value.memMap == memMap
      ensures r.Raised? ==> r.exc == SharedMemoryException
    {
      if name == "" { return Raised(SharedMemoryException); }
      var region := new SharedMemoryMap(accessor, name, memMap);
      return Returned(region);
    }

    /** On success the header and the content replace everything after the flag byte up to their end. */
    method PutBytes(content: seq<Byte>, order: ByteOrder) returns (r: Outcome<nat>)
      requires memMap.Valid()
      modifies memMap`pos, memMap.buf
      ensures memMap.Valid()
      ensures r.Returned? <==> && !memMap.closed && memMap.writable && |content| < TWO_64
                               && HEADER_BYTES + |content| <= memMap.size
      ensures r.Returned? ==>
                && r.value == |content|
                && memMap.buf[..] == old(memMap.buf[..1]) + LengthToBytes(|content|, order).value + content
                                     + old(memMap.buf[HEADER_BYTES + |content|..])
      // A content that is too long fails after the header was written.
      ensures r.Raised? ==>
                memMap.buf[..] ==
                if !memMap.closed && memMap.writable && |content| < TWO_64 && memMap.size >= HEADER_BYTES
                then old(memMap.buf[..1]) + LengthToBytes(|content|, order).value + old(memMap.buf[HEADER_BYTES..])
                else old(memMap.buf[..])
    {
      var s := memMap.Seek(FLAG_BYTES);
      if s.Raised? { return Raised(s.exc); }
      var lengthBytes := LengthToBytes(|content|, order);
      if lengthBytes.Raised? { return Raised(lengthBytes.exc); }
      var header := memMap.Write(lengthBytes.value);
      if header.Raised? { return Raised(header.exc); }
      // Write is all or nothing, so the "cannot write content size" branch is never taken.
      assert header.value == LENGTH_BYTES;
      r := memMap.Write(content);
    }

    /** _get_content_length. */
    method GetContentLength() returns (r: Outcome<int>)
      requires memMap.Valid()
      modifies memMap`pos
      ensures memMap.Valid()
      ensures memMap.closed ==> r == Raised(ValueError)
      ensures !memMap.closed ==> r == StoredLength(memMap.Bytes())
    {
      var s := memMap.Seek(FLAG_BYTES);
      if s.Raised? { return Raised(s.exc); }
      var header := memMap.Read(LENGTH_BYTES);
      return BytesToLong(header.value);
    }

    method GetBytes(offset: int, count: int) returns (r: Outcome<seq<Byte>>)
      requires memMap.Valid()
      modifies memMap`pos
      ensures memMap.Valid()
      ensures memMap.closed ==> r == Raised(ValueError)
      ensures !memMap.closed ==> r == ReadContent(memMap.Bytes(), offset, count)
    {
      ghost var bytes := memMap.Bytes();
      var length := GetContentLength();
      if length.Raised? { return Raised(length.exc); }
      var s := memMap.Seek(HEADER_BYTES);
      if offset > 0 {
        s := memMap.Seek(memMap.pos + offset);
        if s.Raised? { return Raised(s.exc); }
      }
      ghost var start := memMap.pos;
      assert start == HEADER_BYTES + if offset > 0 then offset else 0;
      r := memMap.Read(if count > 0 then count else -1);
      assert bytes[..|bytes|] == bytes;
      assert r.value == bytes[start..memMap.pos];
    }

    /** The map is closed whatever happens to the file, except that a bad name raises first. */
    method Dispose(isDeleteFile: bool, unopenable: set<string>, removable: bool) returns (r: Outcome<bool>)
      requires accessor.disk.Valid()
      modifies (if isDeleteFile then {accessor.disk} else {})`files, memMap`closed
      ensures accessor.disk.Valid()
      ensures !isDeleteFile ==> r == Returned(true) && accessor.disk.files == old(accessor.disk.files)
      ensures isDeleteFile ==>
                (accessor.disk.View(), r) ==
                DeleteMap(old(accessor.disk.View()), accessor.validDirs, name, unopenable, removable)
      ensures r.Returned? ==> memMap.closed
      ensures forall p :: p in accessor.disk.files ==>
                p in old(accessor.disk.files) && accessor.disk.files[p] == old(accessor.disk.files[p])
    {
      r := Returned(true);
      if isDeleteFile {
        r := accessor.DeleteMemMap(name, memMap, unopenable, removable);
        if r.Raised? { return r; }
      }
      memMap.Close();
    }
  }
}
