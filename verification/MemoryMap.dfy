/** An mmap object: a cursor over the first `size` bytes of a file. The file's bytes are an array
    that every map of the file shares. */
module MemoryMap {
  import opened Outcomes
  import opened Utf8
  import opened LengthHeader

  class MMap {
    const buf: array<Byte>
    const size: nat
    const writable: bool
    var pos: nat
    var closed: bool

    ghost predicate Valid()
      reads this
    {
      pos <= size <= buf.Length
    }

    ghost function Bytes(): (b: seq<Byte>)
      reads this, buf
      requires Valid()
      ensures |b| == size
    {
      buf[..size]
    }

    constructor (buf: array<Byte>, size: nat, writable: bool)
      requires size <= buf.Length
      ensures Valid() && this.buf == buf && this.size == size && this.writable == writable
      ensures pos == 0 && !closed
    {
      this.buf, this.size, this.writable := buf, size, writable;
      pos, closed := 0, false;
    }

    method Seek(target: int) returns (r: Outcome<()>)
      requires Valid()
      modifies this`pos
      ensures Valid()
      ensures r.Returned? <==> !closed && 0 <= target <= size
      ensures r.Raised? ==> r.exc == ValueError
      ensures pos == if r.Returned? then target else old(pos)
    {
      if closed || !(0 <= target <= size) { return Raised(ValueError); }
      pos := target;
      return Returned(());
    }

    /** read(count); a negative count reads to the end, as read() does. */
    method Read(count: int) returns (r: Outcome<seq<Byte>>)
      requires Valid()
      modifies this`pos
      ensures Valid()
      ensures closed ==> r == Raised(ValueError) && pos == old(pos)
      ensures !closed ==>
                && pos == (if 0 <= count <= size - old(pos) then old(pos) + count else size)
                && r == Returned(buf[..size][old(pos)..pos])
    {
      if closed { return Raised(ValueError); }
      var n := if 0 <= count <= size - pos then count else size - pos;
      var data := buf[..size][pos..pos + n];
      pos := pos + n;
      return Returned(data);
    }

    method Write(data: seq<Byte>) returns (r: Outcome<nat>)
      requires Valid()
      modifies this`pos, buf
      ensures Valid()
      ensures r.Returned? <==> !closed && writable && old(pos) + |data| <= size
      ensures r.Raised? ==> pos == old(pos) && buf[..] == old(buf[..])
      ensures r.Raised? ==> r.exc == if !closed && !writable then TypeError else ValueError
      ensures r.Returned? ==> r.value == |data| && pos == old(pos) + |data|
      ensures r.Returned? ==> buf[..] == old(buf[..pos]) + data + old(buf[pos + |data|..])
    {
      if closed { return Raised(ValueError); }
      if !writable { return Raised(TypeError); }
      if size - pos < |data| { return Raised(ValueError); }
      forall i | 0 <= i < |data| {
        buf[pos + i] := data[i];
      }
      pos := pos + |data|;
      return Returned(|data|);
    }

    method Close()
      modifies this`closed
      ensures closed
    {
      closed := true;
    }
  }

  /** FileAccessor._is_mem_map_initialized: looks at the flag byte and puts the cursor back. */
  method IsMemMapInitialized(m: MMap) returns (r: Outcome<bool>)
    requires m.Valid()
    modifies m`pos
    ensures m.Valid() && m.pos == old(m.pos)
    ensures m.closed ==> r == Raised(ValueError)
    ensures !m.closed ==> r == Returned(m.size > 0 && m.buf[0] == INITIALIZED)
  {
    var originalPos := m.pos;
    var s := m.Seek(0);
    if s.Raised? { return Raised(s.exc); }
    var byteRead := m.Read(1);
    var isSet := byteRead.value == [INITIALIZED];
    s := m.Seek(originalPos);
    return Returned(isSet);
  }

  /** FileAccessor._set_mem_map_initialized: writes the flag byte and puts the cursor back. */
  method SetMemMapInitialized(m: MMap) returns (r: Outcome<()>)
    requires m.Valid()
    modifies m`pos, m.buf
    ensures m.Valid()
    ensures r.Returned? <==> !m.closed && m.writable && m.size > 0
    ensures m.pos == if m.closed || r.Returned? then old(m.pos) else 0
    ensures r.Returned? ==> m.buf[..] == [INITIALIZED] + old(m.buf[1..])
    ensures r.Raised? ==> m.buf[..] == old(m.buf[..])
  {
    var originalPos := m.pos;
    var s := m.Seek(0);
    if s.Raised? { return Raised(s.exc); }
    var w := m.Write([INITIALIZED]);
    if w.Raised? { return Raised(w.exc); }
    s := m.Seek(originalPos);
    return Returned(());
  }
}
