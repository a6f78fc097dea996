/** The layout of a shared memory map: one flag byte, eight length bytes, then the content. */
module LengthHeader {
  import opened Outcomes
  import opened Utf8

  const INITIALIZED: Byte := 1
  const FLAG_BYTES: nat := 1
  const LENGTH_BYTES: nat := 8
  const HEADER_BYTES: nat := FLAG_BYTES + LENGTH_BYTES
  const MIN_TRANSFER: nat := 1024 * 1024
  const MAX_TRANSFER: nat := 2 * 1024 * 1024 * 1024
  const SIZE_OF_CHAR: nat := 2

  const TWO_63: nat := 0x8000_0000_0000_0000
  const TWO_64: nat := 0x1_0000_0000_0000_0000

  /** sys.byteorder of the host. */
  datatype ByteOrder = Little | Big

  function Pow256(k: nat): (p: nat)
    ensures p >= 1
  {
    if k == 0 then 1 else 256 * Pow256(k - 1)
  }

  function LittleEndian(n: nat, k: nat): (s: seq<Byte>)
    ensures |s| == k
  {
    if k == 0 then [] else [n % 256] + LittleEndian(n / 256, k - 1)
  }

  function Unsigned(s: seq<Byte>): (n: nat) {
    if s == [] then 0 else s[0] + 256 * Unsigned(s[1..])
  }

  function Reversed(s: seq<Byte>): (r: seq<Byte>)
    ensures |r| == |s|
  {
    seq(|s|, i requires 0 <= i < |s| => s[|s| - 1 - i])
  }

  /** int.to_bytes(8, byteorder). */
  function LengthToBytes(n: nat, order: ByteOrder): (r: Outcome<seq<Byte>>)
    ensures r.Returned? <==> n < TWO_64
    ensures r.Returned? ==> |r.value| == LENGTH_BYTES
  {
    if n >= TWO_64 then Raised(OverflowError)
    else if order.Little? then Returned(LittleEndian(n, LENGTH_BYTES))
    else Returned(Reversed(LittleEndian(n, LENGTH_BYTES)))
  }

  /** struct.unpack("<q", b)[0]: little-endian, signed, whatever the host. */
  function BytesToLong(b: seq<Byte>): Outcome<int> {
    if |b| != LENGTH_BYTES then Raised(StructError)
    else if Unsigned(b) < TWO_63 then Returned(Unsigned(b))
    else Returned(Unsigned(b) - TWO_64)
  }

  lemma {:induction false} UnsignedOfLittleEndian(n: nat, k: nat)
    requires n < Pow256(k)
    ensures Unsigned(LittleEndian(n, k)) == n
  {
    if k > 0 {
      UnsignedOfLittleEndian(n / 256, k - 1);
      assert LittleEndian(n, k)[1..] == LittleEndian(n / 256, k - 1);
    }
  }

  lemma {:induction false} LittleEndianOfUnsigned(s: seq<Byte>)
    ensures Unsigned(s) < Pow256(|s|)
    ensures LittleEndian(Unsigned(s), |s|) == s
  {
    if s != [] {
      LittleEndianOfUnsigned(s[1..]);
      var tail := Unsigned(s[1..]);
      assert (s[0] + 256 * tail) % 256 == s[0] && (s[0] + 256 * tail) / 256 == tail;
      assert [s[0]] + s[1..] == s;
    }
  }

  lemma Pow256Of8()
    ensures Pow256(LENGTH_BYTES) == TWO_64
  {
    assert Pow256(2) == 0x1_0000;
    assert Pow256(4) == 0x1_0000_0000;
    assert Pow256(6) == 0x1_0000_0000_0000;
  }

  /** Reading back the stored length gives the length that was written exactly when it fits a
      signed 64-bit integer and the host is little-endian (on a big-endian host only lengths
      whose eight bytes read the same both ways survive). */
  lemma LengthRoundTrip(n: nat, order: ByteOrder)
    requires n < TWO_64
    ensures BytesToLong(LengthToBytes(n, order).value) == Returned(n) <==>
            n < TWO_63 &&
            (order.Little? || Reversed(LittleEndian(n, LENGTH_BYTES)) == LittleEndian(n, LENGTH_BYTES))
  {
    Pow256Of8();
    UnsignedOfLittleEndian(n, LENGTH_BYTES);
    LittleEndianOfUnsigned(LengthToBytes(n, order).value);
  }

  /** Every string the size policy admits encodes to between 2^19 and 2^32 bytes, so its length
      survives the header of a little-endian host. */
  lemma SupportedStringLength(s: PyString)
    requires IsScalarString(s)
    requires MIN_TRANSFER <= |s| * SIZE_OF_CHAR <= MAX_TRANSFER
    ensures Encode(s).Returned? && 0x8_0000 <= |Encode(s).value| <= 0x1_0000_0000
    ensures BytesToLong(LengthToBytes(|Encode(s).value|, Little).value) == Returned(|Encode(s).value|)
  {
    EncodedLength(s);
    LengthRoundTrip(|Encode(s).value|, Little);
  }
}
